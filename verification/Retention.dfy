/** Age tiers, append-only archives, and what they keep of the audit chain. */
module Retention {
  import opened Primitives
  import opened AuditChain

  const DAY_MS: int := 24 * 60 * 60 * 1000

  datatype Policy = Policy(archiveAfterDays: real, deleteAfterDays: real)

  datatype Tier = Hot | Archive | Purge

  function ClassifyAge(timestamp: int, now: int, policy: Policy): Tier {
    var ageDays := (now - timestamp) as real / DAY_MS as real;
    if ageDays >= policy.deleteAfterDays then Purge
    else if ageDays >= policy.archiveAfterDays then Archive
    else Hot
  }

  /**
   * In milliseconds: an entry is purged once its age reaches the delete horizon, archived once it has reached the
   * archive horizon but not the other, and hot before that.
   */
  lemma TiersByAge(timestamp: int, now: int, policy: Policy)
    ensures var age := (now - timestamp) as real;
            var tier := ClassifyAge(timestamp, now, policy);
            && (tier == Purge <==> age >= policy.deleteAfterDays * 86_400_000.0)
            && (tier == Archive <==>
                  policy.archiveAfterDays * 86_400_000.0 <= age < policy.deleteAfterDays * 86_400_000.0)
            && (tier == Hot <==>
                  age < policy.archiveAfterDays * 86_400_000.0 && age < policy.deleteAfterDays * 86_400_000.0)
  {
  }

  /** The entries of one tier, in order. */
  function InTier(entries: seq<Entry>, now: int, policy: Policy, tier: Tier): seq<Entry> {
    if entries == [] then []
    else
      var e := entries[|entries| - 1];
      InTier(entries[..|entries| - 1], now, policy, tier)
      + if ClassifyAge(e.timestamp, now, policy) == tier then [e] else []
  }

  datatype Plan = Plan(hot: seq<Entry>, archive: seq<Entry>, purge: seq<Entry>)

  method PlanRetention(entries: seq<Entry>, now: int, policy: Policy) returns (plan: Plan)
    ensures plan.hot == InTier(entries, now, policy, Hot)
    ensures plan.archive == InTier(entries, now, policy, Archive)
    ensures plan.purge == InTier(entries, now, policy, Purge)
  {
    plan := Plan([], [], []);
    for i := 0 to |entries|
      invariant plan.hot == InTier(entries[..i], now, policy, Hot)
      invariant plan.archive == InTier(entries[..i], now, policy, Archive)
      invariant plan.purge == InTier(entries[..i], now, policy, Purge)
    {
      var entry := entries[i];
      assert entries[..i + 1] == entries[..i] + [entry] && entries[..i + 1][..i] == entries[..i];
      match ClassifyAge(entry.timestamp, now, policy)
      case Hot => plan := plan.(hot := plan.hot + [entry]);
      case Archive => plan := plan.(archive := plan.archive + [entry]);
      case Purge => plan := plan.(purge := plan.purge + [entry]);
    }
    assert entries[..|entries|] == entries;
  }

  /** Every entry lands in exactly one tier. */
  lemma {:induction false} TiersCountAll(entries: seq<Entry>, now: int, policy: Policy)
    ensures |entries| == |InTier(entries, now, policy, Hot)| + |InTier(entries, now, policy, Archive)|
                         + |InTier(entries, now, policy, Purge)|
  {
    if entries != [] {
      TiersCountAll(entries[..|entries| - 1], now, policy);
    }
  }

  ghost predicate TimeOrdered(entries: seq<Entry>) {
    forall i, j :: 0 <= i < j < |entries| ==> entries[i].timestamp <= entries[j].timestamp
  }

  /** Older entries are never in a younger tier. */
  lemma OlderTier(s: int, t: int, now: int, policy: Policy)
    requires s <= t
    ensures ClassifyAge(t, now, policy) == Purge ==> ClassifyAge(s, now, policy) == Purge
    ensures ClassifyAge(t, now, policy) == Archive ==> ClassifyAge(s, now, policy) != Hot
  {
    var d := DAY_MS as real;
    assert (now - t) as real <= (now - s) as real;
    DivideKeepsOrder((now - t) as real, (now - s) as real, d);
  }

  lemma DivideKeepsOrder(x: real, y: real, d: real)
    requires d > 0.0 && x <= y
    ensures x / d <= y / d
  {
    assert y / d - x / d == (y - x) / d;
  }

  /** Before an entry that leaves the hot tier nothing is hot; before a purged one nothing is archived either. */
  lemma NothingYounger(before: seq<Entry>, e: Entry, now: int, policy: Policy)
    requires forall i :: 0 <= i < |before| ==> before[i].timestamp <= e.timestamp
    ensures ClassifyAge(e.timestamp, now, policy) != Hot ==> InTier(before, now, policy, Hot) == []
    ensures ClassifyAge(e.timestamp, now, policy) == Purge ==> InTier(before, now, policy, Archive) == []
  {
    var tier := ClassifyAge(e.timestamp, now, policy);
    forall i | 0 <= i < |before|
      ensures tier != Hot ==> ClassifyAge(before[i].timestamp, now, policy) != Hot
      ensures tier == Purge ==> ClassifyAge(before[i].timestamp, now, policy) == Purge
    {
      OlderTier(before[i].timestamp, e.timestamp, now, policy);
    }
    if tier != Hot { NoneInTier(before, now, policy, Hot); }
    if tier == Purge { NoneInTier(before, now, policy, Archive); }
  }

  /** Adding `e` to the tier `x` of a contiguous split keeps it contiguous when the tiers after it are empty. */
  lemma SplitGrows(t: seq<Entry>, p: seq<Entry>, a: seq<Entry>, h: seq<Entry>, e: Entry, x: Tier)
    requires t == p + a + h && (x != Hot ==> h == []) && (x == Purge ==> a == [])
    ensures t + [e] == (if x == Purge then p + [e] else p) + (if x == Archive then a + [e] else a)
                       + (if x == Hot then h + [e] else h)
  {
    match x
    case Hot => assert (p + a + h) + [e] == p + a + (h + [e]);
    case Archive => assert (p + a + []) + [e] == p + (a + [e]) + [];
    case Purge => assert (p + [] + []) + [e] == (p + [e]) + [] + [];
  }

  lemma TierGrows(entries: seq<Entry>, now: int, policy: Policy, tier: Tier)
    requires entries != []
    ensures var e := entries[|entries| - 1];
            var before := InTier(entries[..|entries| - 1], now, policy, tier);
            InTier(entries, now, policy, tier)
            == if ClassifyAge(e.timestamp, now, policy) == tier then before + [e] else before
  {
    var before := InTier(entries[..|entries| - 1], now, policy, tier);
    assert before + [] == before;
  }

  /** In time order the tiers are contiguous: what is purged, then what is archived, then what stays. */
  lemma {:induction false} TiersAreContiguous(entries: seq<Entry>, now: int, policy: Policy)
    requires TimeOrdered(entries)
    ensures entries == InTier(entries, now, policy, Purge) + InTier(entries, now, policy, Archive)
                       + InTier(entries, now, policy, Hot)
  {
    if entries != [] {
      var before, e := entries[..|entries| - 1], entries[|entries| - 1];
      TiersAreContiguous(before, now, policy);
      NothingYounger(before, e, now, policy);
      assert entries == before + [e];
      SplitGrows(before, InTier(before, now, policy, Purge), InTier(before, now, policy, Archive),
                 InTier(before, now, policy, Hot), e, ClassifyAge(e.timestamp, now, policy));
      TierGrows(entries, now, policy, Purge);
      TierGrows(entries, now, policy, Archive);
      TierGrows(entries, now, policy, Hot);
    }
  }

  lemma {:induction false} NoneInTier(entries: seq<Entry>, now: int, policy: Policy, tier: Tier)
    requires forall i :: 0 <= i < |entries| ==> ClassifyAge(entries[i].timestamp, now, policy) != tier
    ensures InTier(entries, now, policy, tier) == []
  {
    if entries != [] {
      NoneInTier(entries[..|entries| - 1], now, policy, tier);
    }
  }

  // ----- Archives -----

  datatype Manifest = Manifest(
    id: string, entryCount: nat, fromTimestamp: int, toTimestamp: int, firstPreviousHash: string, lastHash: string,
    payloadSha256: string, byteSize: nat)

  /** One archive file and its manifest. */
  datatype ArchiveFile = ArchiveFile(manifest: Manifest, entries: seq<Entry>)

  function InsertByTime(s: seq<Entry>, e: Entry): (r: seq<Entry>)
    ensures multiset(r) == multiset(s) + multiset{e}
    ensures forall x :: x in r ==> x in s || x == e
  {
    if s == [] || s[|s| - 1].timestamp <= e.timestamp then s + [e]
    else
      assert s == s[..|s| - 1] + [s[|s| - 1]];
      InsertByTime(s[..|s| - 1], e) + [s[|s| - 1]]
  }

  /** The stable sort by timestamp. */
  function SortByTime(s: seq<Entry>): (r: seq<Entry>)
    ensures multiset(r) == multiset(s)
  {
    if s == [] then []
    else
      assert s == s[..|s| - 1] + [s[|s| - 1]];
      InsertByTime(SortByTime(s[..|s| - 1]), s[|s| - 1])
  }

  lemma {:induction false} InsertKeepsOrder(s: seq<Entry>, e: Entry)
    requires TimeOrdered(s)
    ensures TimeOrdered(InsertByTime(s, e))
  {
    if s != [] && s[|s| - 1].timestamp > e.timestamp {
      InsertKeepsOrder(s[..|s| - 1], e);
      var r := InsertByTime(s[..|s| - 1], e);
      forall i | 0 <= i < |r| ensures r[i].timestamp <= s[|s| - 1].timestamp {
        assert r[i] in s[..|s| - 1] || r[i] == e;
      }
    }
  }

  lemma {:induction false} SortOrders(s: seq<Entry>)
    ensures TimeOrdered(SortByTime(s))
  {
    if s != [] {
      SortOrders(s[..|s| - 1]);
      InsertKeepsOrder(SortByTime(s[..|s| - 1]), s[|s| - 1]);
    }
  }

  lemma InsertLast(s: seq<Entry>, e: Entry)
    requires s == [] || s[|s| - 1].timestamp <= e.timestamp
    ensures InsertByTime(s, e) == s + [e]
  {
  }

  lemma SplitLast(s: seq<Entry>)
    requires s != []
    ensures s[..|s| - 1] + [s[|s| - 1]] == s
  {
  }

  /** Entries already in time order are archived as they stand. */
  lemma {:induction false} SortedStays(s: seq<Entry>)
    requires TimeOrdered(s)
    ensures SortByTime(s) == s
  {
    if s != [] {
      var init, last := s[..|s| - 1], s[|s| - 1];
      SortedStays(init);
      assert init != [] ==> init[|init| - 1] == s[|s| - 2];
      InsertLast(init, last);
      SplitLast(s);
    }
  }

  /** The contents of an archive file: one line for each entry. */
  function Ndjson(rt: Runtime, ordered: seq<Entry>): string {
    if ordered == [] then "" else Ndjson(rt, ordered[..|ordered| - 1]) + rt.line(ordered[|ordered| - 1]) + "\n"
  }

  /** What `readArchive` makes of a file: its lines without the empty ones. */
  function LinesOf(text: string, line: string): seq<string> {
    if text == "" then (if line == "" then [] else [line])
    else if text[0] == '\n' then (if line == "" then [] else [line]) + LinesOf(text[1..], "")
    else LinesOf(text[1..], line + [text[0]])
  }

  lemma {:induction false} LineEnds(line: string, rest: string, start: string)
    requires '\n' !in line && start + line != ""
    ensures LinesOf(line + ("\n" + rest), start) == [start + line] + LinesOf(rest, "")
    decreases |line|
  {
    var text := line + ("\n" + rest);
    if line == "" {
      assert text == "\n" + rest && text[1..] == rest && start + line == start;
    } else {
      assert text[1..] == line[1..] + ("\n" + rest) && text[0] == line[0];
      assert start + [line[0]] + line[1..] == start + line;
      LineEnds(line[1..], rest, start + [line[0]]);
    }
  }

  lemma {:induction false} LinesFollow(rt: Runtime, ordered: seq<Entry>, rest: string)
    requires forall e :: e in ordered ==> rt.line(e) != "" && '\n' !in rt.line(e)
    ensures LinesOf(Ndjson(rt, ordered) + rest, "")
            == seq(|ordered|, i requires 0 <= i < |ordered| => rt.line(ordered[i])) + LinesOf(rest, "")
    decreases |ordered|
  {
    if ordered == [] {
      assert "" + rest == rest;
    } else {
      var init, line := ordered[..|ordered| - 1], rt.line(ordered[|ordered| - 1]);
      LinesFollow(rt, init, line + ("\n" + rest));
      LineEnds(line, rest, "");
      assert Ndjson(rt, ordered) + rest == Ndjson(rt, init) + (line + ("\n" + rest));
      assert "" + line == line;
    }
  }

  /** Reading an archive file line by line gives back its entries' lines, in order. */
  lemma ArchiveReadsBack(rt: Runtime, ordered: seq<Entry>)
    requires forall e :: e in ordered ==> rt.line(e) != "" && '\n' !in rt.line(e)
    ensures var lines := LinesOf(Ndjson(rt, ordered), "");
            |lines| == |ordered| && forall i :: 0 <= i < |lines| ==> lines[i] == rt.line(ordered[i])
  {
    LinesFollow(rt, ordered, "");
    assert Ndjson(rt, ordered) + "" == Ndjson(rt, ordered);
  }

  function ManifestOf(rt: Runtime, ordered: seq<Entry>, id: Option<string>): Manifest
    requires ordered != []
  {
    var first, last := ordered[0], ordered[|ordered| - 1];
    var name := if id.Some? then id.value
                else "audit-" + rt.epoch(first.timestamp) + "-" + rt.epoch(last.timestamp) + "-"
                     + first.hash[..if |first.hash| < 8 then |first.hash| else 8];
    var payload := Ndjson(rt, ordered);
    Manifest(name, |ordered|, first.timestamp, last.timestamp, first.previousHash, last.hash, rt.sha(payload),
             rt.octets(payload))
  }

  predicate HasArchive(files: seq<ArchiveFile>, id: string) {
    exists f :: f in files && f.manifest.id == id
  }

  /** The files after one exclusive write; an empty batch or a taken name writes nothing. */
  function WithArchive(rt: Runtime, files: seq<ArchiveFile>, entries: seq<Entry>, id: Option<string>)
    : Option<seq<ArchiveFile>>
  {
    if entries == [] then None
    else
      var ordered := SortByTime(entries);
      assert |ordered| == |multiset(ordered)| == |multiset(entries)| == |entries|;
      var m := ManifestOf(rt, ordered, id);
      if HasArchive(files, m.id) then None else Some(files + [ArchiveFile(m, ordered)])
  }

  /** The manifest of a new file tells its size, its digest and the chain hashes at its two ends. */
  lemma ManifestSealsFile(rt: Runtime, files: seq<ArchiveFile>, entries: seq<Entry>, id: Option<string>)
    requires WithArchive(rt, files, entries, id).Some?
    ensures var fs := WithArchive(rt, files, entries, id).value;
            && fs != [] && fs[..|fs| - 1] == files
            && var f := fs[|fs| - 1];
            && f.entries != [] && f.manifest.entryCount == |entries| == |f.entries|
            && f.manifest.payloadSha256 == rt.sha(Ndjson(rt, f.entries))
            && f.manifest.byteSize == rt.octets(Ndjson(rt, f.entries))
            && (id.Some? ==> f.manifest.id == id.value)
            && (id == None && |f.entries[0].hash| >= 8 ==>
                  f.manifest.id == "audit-" + rt.epoch(f.manifest.fromTimestamp) + "-"
                                   + rt.epoch(f.manifest.toTimestamp) + "-" + f.entries[0].hash[..8])
            && f.manifest.fromTimestamp == f.entries[0].timestamp
            && f.manifest.toTimestamp == f.entries[|f.entries| - 1].timestamp
            && f.manifest.firstPreviousHash == f.entries[0].previousHash
            && f.manifest.lastHash == f.entries[|f.entries| - 1].hash
            && (forall e :: e in f.entries ==> f.manifest.fromTimestamp <= e.timestamp <= f.manifest.toTimestamp)
  {
    var ordered := SortByTime(entries);
    assert |ordered| == |multiset(ordered)| == |multiset(entries)| == |entries|;
    SortOrders(entries);
    forall e | e in ordered ensures ordered[0].timestamp <= e.timestamp <= ordered[|ordered| - 1].timestamp {
      var i :| 0 <= i < |ordered| && ordered[i] == e;
    }
  }

  lemma SortKeepsAll(entries: seq<Entry>)
    ensures var ordered := SortByTime(entries);
            TimeOrdered(ordered) && multiset(ordered) == multiset(entries) && |ordered| == |entries|
  {
    SortOrders(entries);
    assert |SortByTime(entries)| == |multiset(SortByTime(entries))| == |multiset(entries)| == |entries|;
  }

  lemma OneWrite(rt: Runtime, files: seq<ArchiveFile>, entries: seq<Entry>, id: Option<string>, ordered: seq<Entry>,
                 m: Manifest)
    requires entries != [] && ordered == SortByTime(entries) && ordered != [] && m == ManifestOf(rt, ordered, id)
    ensures WithArchive(rt, files, entries, id)
            == if HasArchive(files, m.id) then None else Some(files + [ArchiveFile(m, ordered)])
    ensures var fs := files + [ArchiveFile(m, ordered)]; fs[|fs| - 1] == ArchiveFile(m, ordered)
  {
  }

  class AuditArchiveStore {
    const rt: Runtime
    var files: seq<ArchiveFile>

    constructor (rt: Runtime)
      ensures this.rt == rt && files == []
    {
      this.rt := rt;
      files := [];
    }

    method IsTaken(id: string) returns (taken: bool)
      ensures taken <==> HasArchive(files, id)
    {
      for i := 0 to |files|
        invariant forall j :: 0 <= j < i ==> files[j].manifest.id != id
      {
        if files[i].manifest.id == id { return true; }
      }
      return false;
    }

    /** Orders the batch and writes its manifest. */
    method Seal(entries: seq<Entry>, id: Option<string>) returns (f: ArchiveFile)
      requires entries != []
      ensures WithArchive(rt, files, entries, id)
              == if HasArchive(files, f.manifest.id) then None else Some(files + [f])
      ensures TimeOrdered(f.entries) && multiset(f.entries) == multiset(entries)
    {
      var ordered := SortByTime(entries);
      SortKeepsAll(entries);
      var manifest := ManifestOf(rt, ordered, id);
      f := ArchiveFile(manifest, ordered);
      OneWrite(rt, files, entries, id, ordered, manifest);
    }

    method WriteArchive(entries: seq<Entry>, id: Option<string>) returns (r: Option<Manifest>)
      modifies this
      ensures match WithArchive(rt, old(files), entries, id)
              case None => r == None && files == old(files)
              case Some(fs) => files == fs && r == Some(fs[|fs| - 1].manifest)
      ensures r.Some? ==> TimeOrdered(files[|files| - 1].entries)
                          && multiset(files[|files| - 1].entries) == multiset(entries)
    {
      if |entries| == 0 { return None; }
      var f := Seal(entries, id);
      var taken := IsTaken(f.manifest.id);
      if taken { return None; }
      files := files + [f];
      return Some(f.manifest);
    }
  }

  /** What one sweep leaves: nothing if the archive write fails, else the new files and the hot tier. */
  datatype Sweep = Sweep(files: seq<ArchiveFile>, hot: seq<Entry>)

  function Swept(rt: Runtime, files: seq<ArchiveFile>, entries: seq<Entry>, now: int, policy: Policy): Option<Sweep> {
    var batch, hot := InTier(entries, now, policy, Archive), InTier(entries, now, policy, Hot);
    if batch == [] then Some(Sweep(files, hot))
    else
      match WithArchive(rt, files, batch, None)
      case None => None
      case Some(fs) => Some(Sweep(fs, hot))
  }

  datatype Enforcement = Enforcement(archived: nat, purged: nat, hot: nat, archiveIds: seq<string>)

  method EnforceRetention(entries: seq<Entry>, now: int, policy: Policy, store: AuditArchiveStore)
    returns (r: Option<(Enforcement, seq<Entry>)>)
    modifies store
    ensures match Swept(store.rt, old(store.files), entries, now, policy)
            case None => r == None && store.files == old(store.files)
            case Some(s) => r.Some? && r.value.1 == s.hot && store.files == s.files
    ensures r.Some? ==>
              && r.value.0.archived == |InTier(entries, now, policy, Archive)|
              && r.value.0.purged == |InTier(entries, now, policy, Purge)|
              && r.value.0.hot == |r.value.1| == |InTier(entries, now, policy, Hot)|
              && r.value.0.archived + r.value.0.purged + r.value.0.hot == |entries|
              && |store.files| == |old(store.files)| + |r.value.0.archiveIds|
              && (|r.value.0.archiveIds| > 0 ==>
                    r.value.0.archiveIds == [store.files[|store.files| - 1].manifest.id])
  {
    var plan := PlanRetention(entries, now, policy);
    TiersCountAll(entries, now, policy);
    var archiveIds := [];
    if |plan.archive| > 0 {
      var manifest := store.WriteArchive(plan.archive, None);
      if manifest == None { return None; }
      archiveIds := [manifest.value.id];
    }
    return Some((Enforcement(|plan.archive|, |plan.purge|, |plan.hot|, archiveIds), plan.hot));
  }
}
