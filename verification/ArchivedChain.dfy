/** Logging interleaved with retention sweeps: what the archives and the hot store keep of the chain together. */
module ArchivedChain {
  import opened Primitives
  import opened AuditChain
  import opened Retention

  /** A batch taken out of the hot store: dropped, or written to an archive file. */
  datatype Segment = Dropped(entries: seq<Entry>) | Filed(file: ArchiveFile)

  function EntriesOf(s: Segment): seq<Entry> {
    match s
    case Dropped(entries) => entries
    case Filed(file) => file.entries
  }

  /** The logger's memory, the hot store, the archive files, and every eviction so far in order. */
  datatype System = System(memory: seq<Entry>, hot: seq<Entry>, files: seq<ArchiveFile>, evicted: seq<Segment>)

  datatype Step = Append(now: int, input: LogInput) | SweepNow(now: int, policy: Policy)

  const EMPTY := System([], [], [], [])

  /** The newest hash the hot store knows, if it holds anything. */
  function Latest(hot: seq<Entry>): Option<string> {
    if hot == [] then None else Some(hot[|hot| - 1].hash)
  }

  function Next(rt: Runtime, s: System, step: Step): System {
    match step
    case Append(now, input) =>
      var e := Logged(rt, PreviousHash(Latest(s.hot), s.memory), now, input);
      s.(memory := s.memory + [e], hot := s.hot + [e])
    case SweepNow(now, policy) =>
      match Swept(rt, s.files, s.hot, now, policy)
      case None => s
      case Some(sw) => AfterSweep(s, sw, InTier(s.hot, now, policy, Purge))
  }

  function AfterDrop(evicted: seq<Segment>, purge: seq<Entry>): seq<Segment> {
    if purge == [] then evicted else evicted + [Dropped(purge)]
  }

  /** The purge tier is dropped and any file the sweep wrote is the next eviction. */
  function AfterSweep(s: System, sw: Sweep, purge: seq<Entry>): System {
    var mid := AfterDrop(s.evicted, purge);
    System(s.memory, sw.hot, sw.files,
           if |sw.files| <= |s.files| then mid else mid + [Filed(sw.files[|sw.files| - 1])])
  }

  function Run(rt: Runtime, steps: seq<Step>): System {
    if steps == [] then EMPTY else Next(rt, Run(rt, steps[..|steps| - 1]), steps[|steps| - 1])
  }

  /** The clock never goes back. */
  ghost predicate Clocked(steps: seq<Step>) {
    forall i, j :: 0 <= i < j < |steps| ==> steps[i].now <= steps[j].now
  }

  function Flatten(segments: seq<Segment>): seq<Entry> {
    if segments == [] then [] else Flatten(segments[..|segments| - 1]) + EntriesOf(segments[|segments| - 1])
  }

  /** The contents of all archive files in the order they were written. */
  function Archived(files: seq<ArchiveFile>): seq<Entry> {
    if files == [] then [] else Archived(files[..|files| - 1]) + files[|files| - 1].entries
  }

  /** Nothing logged is lost: what was evicted, in order, followed by what is hot, is the whole verified log. */
  ghost predicate Inv(rt: Runtime, s: System) {
    && Chain(rt, GENESIS, s.memory)
    && TimeOrdered(s.memory)
    && s.memory == Flatten(s.evicted) + s.hot
    && (forall i :: 0 <= i < |s.evicted| ==> EntriesOf(s.evicted[i]) != [])
    && FilesAre(s.evicted, s.files)
  }

  /** The archive files are exactly the filed evictions, in order, each with the manifest of its contents. */
  ghost predicate FilesAre(segments: seq<Segment>, files: seq<ArchiveFile>) {
    if segments == [] then files == []
    else
      match segments[|segments| - 1]
      case Dropped(_) => FilesAre(segments[..|segments| - 1], files)
      case Filed(f) =>
        && files != [] && files[|files| - 1] == f && Describes(f)
        && FilesAre(segments[..|segments| - 1], files[..|files| - 1])
  }

  ghost predicate Describes(f: ArchiveFile) {
    && f.entries != []
    && f.manifest.entryCount == |f.entries|
    && f.manifest.firstPreviousHash == f.entries[0].previousHash
    && f.manifest.lastHash == f.entries[|f.entries| - 1].hash
    && f.manifest.fromTimestamp == f.entries[0].timestamp
    && f.manifest.toTimestamp == f.entries[|f.entries| - 1].timestamp
  }

  ghost predicate NoneAfter(entries: seq<Entry>, now: int) {
    forall i :: 0 <= i < |entries| ==> entries[i].timestamp <= now
  }

  lemma ChainGrows(rt: Runtime, entries: seq<Entry>, e: Entry)
    requires Chain(rt, GENESIS, entries) && Links(rt, Head(GENESIS, entries), e)
    ensures Chain(rt, GENESIS, entries + [e])
  {
    assert (entries + [e])[..|entries|] == entries;
  }

  lemma TimeGrows(entries: seq<Entry>, e: Entry, now: int)
    requires TimeOrdered(entries) && NoneAfter(entries, now) && e.timestamp == now
    ensures TimeOrdered(entries + [e]) && NoneAfter(entries + [e], now)
  {
  }

  lemma LatestIsHead(s: System)
    requires s.memory == Flatten(s.evicted) + s.hot
    ensures PreviousHash(Latest(s.hot), s.memory) == Head(GENESIS, s.memory)
  {
    assert s.hot != [] ==> s.memory[|s.memory| - 1] == s.hot[|s.hot| - 1];
  }

  lemma AppendKeepsInv(rt: Runtime, s: System, now: int, input: LogInput)
    requires Inv(rt, s) && NoneAfter(s.memory, now)
    ensures Inv(rt, Next(rt, s, Append(now, input))) && NoneAfter(Next(rt, s, Append(now, input)).memory, now)
  {
    LatestIsHead(s);
    var e := Logged(rt, PreviousHash(Latest(s.hot), s.memory), now, input);
    ChainGrows(rt, s.memory, e);
    TimeGrows(s.memory, e, now);
    AppendedInv(rt, s, e);
  }

  lemma AppendAtEnd(whole: seq<Entry>, gone: seq<Entry>, hot: seq<Entry>, e: Entry)
    requires whole == gone + hot
    ensures whole + [e] == gone + (hot + [e])
  {
  }

  lemma AppendedInv(rt: Runtime, s: System, e: Entry)
    requires Inv(rt, s) && Chain(rt, GENESIS, s.memory + [e]) && TimeOrdered(s.memory + [e])
    ensures Inv(rt, s.(memory := s.memory + [e], hot := s.hot + [e]))
  {
    AppendAtEnd(s.memory, Flatten(s.evicted), s.hot, e);
  }

  lemma TimeOrderedSlice(s: seq<Entry>, x: seq<Entry>, y: seq<Entry>, z: seq<Entry>)
    requires TimeOrdered(s) && s == x + y + z
    ensures TimeOrdered(y)
  {
    forall i, j | 0 <= i < j < |y| ensures y[i].timestamp <= y[j].timestamp {
      assert s[|x| + i] == y[i] && s[|x| + j] == y[j];
    }
  }

  /** The hot store is cut in two places: dropped, archived, kept. */
  lemma SweepCuts(rt: Runtime, s: System, now: int, policy: Policy)
    requires TimeOrdered(s.memory) && s.memory == Flatten(s.evicted) + s.hot
    ensures s.hot == InTier(s.hot, now, policy, Purge) + InTier(s.hot, now, policy, Archive)
                     + InTier(s.hot, now, policy, Hot)
    ensures TimeOrdered(InTier(s.hot, now, policy, Archive))
  {
    assert s.memory == Flatten(s.evicted) + s.hot + [];
    TimeOrderedSlice(s.memory, Flatten(s.evicted), s.hot, []);
    TiersAreContiguous(s.hot, now, policy);
    TimeOrderedSlice(s.hot, InTier(s.hot, now, policy, Purge), InTier(s.hot, now, policy, Archive),
                     InTier(s.hot, now, policy, Hot));
  }

  lemma PushSegment(evicted: seq<Segment>, files: seq<ArchiveFile>, x: Segment)
    requires FilesAre(evicted, files)
    ensures Flatten(evicted + [x]) == Flatten(evicted) + EntriesOf(x)
    ensures x.Dropped? ==> FilesAre(evicted + [x], files)
    ensures x.Filed? && Describes(x.file) ==> FilesAre(evicted + [x], files + [x.file])
  {
    assert (evicted + [x])[..|evicted|] == evicted;
    if x.Filed? {
      assert (files + [x.file])[..|files|] == files;
    }
  }

  lemma ArchiveShape(rt: Runtime, files: seq<ArchiveFile>, batch: seq<Entry>)
    requires TimeOrdered(batch) && WithArchive(rt, files, batch, None).Some?
    ensures var fs := WithArchive(rt, files, batch, None).value;
            && |fs| == |files| + 1 && fs == files + [fs[|files|]]
            && Describes(fs[|files|]) && fs[|files|].entries == batch
  {
    SortedStays(batch);
  }

  /** What a sweep does unless the archive write fails; `f` is the file it writes when the archive tier is not empty. */
  lemma SweepShape(rt: Runtime, s: System, now: int, policy: Policy) returns (f: ArchiveFile)
    requires TimeOrdered(InTier(s.hot, now, policy, Archive))
    requires Swept(rt, s.files, s.hot, now, policy).Some?
    ensures var s' := Next(rt, s, SweepNow(now, policy));
            var p, a := InTier(s.hot, now, policy, Purge), InTier(s.hot, now, policy, Archive);
            && s'.memory == s.memory && s'.hot == InTier(s.hot, now, policy, Hot)
            && (a == [] ==> s'.files == s.files && s'.evicted == AfterDrop(s.evicted, p))
            && (a != [] ==> s'.files == s.files + [f] && s'.evicted == AfterDrop(s.evicted, p) + [Filed(f)]
                            && Describes(f) && f.entries == a)
  {
    var a := InTier(s.hot, now, policy, Archive);
    var fs := Swept(rt, s.files, s.hot, now, policy).value.files;
    if a != [] {
      ArchiveShape(rt, s.files, a);
      f := fs[|s.files|];
    } else {
      f := ArchiveFile(Manifest("", 0, 0, 0, "", "", "", 0), []);
    }
  }

  ghost predicate EvictedAre(evicted: seq<Segment>, files: seq<ArchiveFile>, entries: seq<Entry>) {
    && FilesAre(evicted, files)
    && Flatten(evicted) == entries
    && forall i :: 0 <= i < |evicted| ==> EntriesOf(evicted[i]) != []
  }

  lemma DropAdds(evicted: seq<Segment>, files: seq<ArchiveFile>, entries: seq<Entry>, p: seq<Entry>)
    requires EvictedAre(evicted, files, entries)
    ensures EvictedAre(AfterDrop(evicted, p), files, entries + p)
  {
    if p == [] {
      assert entries + p == entries && AfterDrop(evicted, p) == evicted;
    } else {
      var x := Dropped(p);
      PushSegment(evicted, files, x);
      assert AfterDrop(evicted, p) == evicted + [x] && EntriesOf(x) == p;
    }
  }

  lemma FileAdds(evicted: seq<Segment>, files: seq<ArchiveFile>, entries: seq<Entry>, f: ArchiveFile)
    requires EvictedAre(evicted, files, entries) && Describes(f)
    ensures EvictedAre(evicted + [Filed(f)], files + [f], entries + f.entries)
  {
    PushSegment(evicted, files, Filed(f));
  }

  /** Dropping what is oldest and filing what follows loses nothing. */
  lemma EvictionKeepsInv(rt: Runtime, s: System, s': System, p: seq<Entry>, a: seq<Entry>, h: seq<Entry>,
                         f: ArchiveFile)
    requires Inv(rt, s) && s.hot == p + a + h
    requires s'.memory == s.memory && s'.hot == h
    requires a == [] ==> s'.files == s.files && s'.evicted == AfterDrop(s.evicted, p)
    requires a != [] ==> s'.files == s.files + [f] && s'.evicted == AfterDrop(s.evicted, p) + [Filed(f)]
                         && Describes(f) && f.entries == a
    ensures Inv(rt, s')
  {
    assert EvictedAre(s.evicted, s.files, Flatten(s.evicted));
    var gone := Flatten(s.evicted);
    DropAdds(s.evicted, s.files, gone, p);
    if a == [] {
      assert gone + p + a == gone + p;
    } else {
      FileAdds(AfterDrop(s.evicted, p), s.files, gone + p, f);
    }
    Regroup(gone, p, a, h);
  }

  lemma Regroup(w: seq<Entry>, x: seq<Entry>, y: seq<Entry>, z: seq<Entry>)
    ensures w + (x + y + z) == (w + x + y) + z
  {
  }

  lemma SweepKeepsInv(rt: Runtime, s: System, now: int, policy: Policy)
    requires Inv(rt, s)
    ensures Inv(rt, Next(rt, s, SweepNow(now, policy))) && Next(rt, s, SweepNow(now, policy)).memory == s.memory
  {
    SweepCuts(rt, s, now, policy);
    var s' := Next(rt, s, SweepNow(now, policy));
    if Swept(rt, s.files, s.hot, now, policy).Some? {
      var f := SweepShape(rt, s, now, policy);
      EvictionKeepsInv(rt, s, s', InTier(s.hot, now, policy, Purge), InTier(s.hot, now, policy, Archive),
                       InTier(s.hot, now, policy, Hot), f);
    }
  }

  lemma StepKeepsInv(rt: Runtime, s: System, step: Step)
    requires Inv(rt, s) && NoneAfter(s.memory, step.now)
    ensures Inv(rt, Next(rt, s, step)) && NoneAfter(Next(rt, s, step).memory, step.now)
  {
    match step
    case Append(now, input) => AppendKeepsInv(rt, s, now, input);
    case SweepNow(now, policy) => SweepKeepsInv(rt, s, now, policy);
  }

  lemma {:induction false} RunKeepsInv(rt: Runtime, steps: seq<Step>)
    requires Clocked(steps)
    ensures Inv(rt, Run(rt, steps))
    ensures steps != [] ==> NoneAfter(Run(rt, steps).memory, steps[|steps| - 1].now)
    ensures steps == [] ==> Run(rt, steps).memory == []
  {
    if steps != [] {
      var before, last := steps[..|steps| - 1], steps[|steps| - 1];
      RunKeepsInv(rt, before);
      assert before != [] ==> before[|before| - 1].now <= last.now;
      StepKeepsInv(rt, Run(rt, before), last);
    }
  }

  // ----- Verifying across the archive boundary -----

  ghost predicate NothingDropped(s: System) {
    forall i :: 0 <= i < |s.evicted| ==> s.evicted[i].Filed?
  }

  /** Each manifest resumes where the one before it ended. */
  ghost predicate ManifestsLink(files: seq<ArchiveFile>) {
    && (files != [] ==> files[0].manifest.firstPreviousHash == GENESIS)
    && forall k :: 0 < k < |files| ==> files[k].manifest.firstPreviousHash == files[k - 1].manifest.lastHash
  }

  function LastHash(files: seq<ArchiveFile>): string {
    if files == [] then GENESIS else files[|files| - 1].manifest.lastHash
  }

  lemma FileLinks(rt: Runtime, files: seq<ArchiveFile>)
    requires files != [] && ManifestsLink(files[..|files| - 1])
    requires files[|files| - 1].manifest.firstPreviousHash == LastHash(files[..|files| - 1])
    ensures ManifestsLink(files)
  {
    var before := files[..|files| - 1];
    forall k | 0 < k < |files| ensures files[k].manifest.firstPreviousHash == files[k - 1].manifest.lastHash {
      assert files[k - 1] == before[k - 1];
      assert k < |files| - 1 ==> files[k] == before[k];
    }
    assert |files| > 1 ==> files[0] == before[0];
  }

  lemma OneMoreFile(rt: Runtime, files: seq<ArchiveFile>)
    requires files != [] && Describes(files[|files| - 1])
    requires var before := files[..|files| - 1];
             ManifestsLink(before) && Head(GENESIS, Archived(before)) == LastHash(before)
             && Chain(rt, LastHash(before), files[|files| - 1].entries)
    ensures ManifestsLink(files) && Head(GENESIS, Archived(files)) == LastHash(files)
  {
    FirstLinks(rt, LastHash(files[..|files| - 1]), files[|files| - 1].entries);
    FileLinks(rt, files);
  }

  lemma {:induction false} FiledIsArchived(rt: Runtime, segments: seq<Segment>, files: seq<ArchiveFile>)
    requires FilesAre(segments, files) && forall i :: 0 <= i < |segments| ==> segments[i].Filed?
    requires Chain(rt, GENESIS, Flatten(segments))
    ensures Flatten(segments) == Archived(files) && ManifestsLink(files)
    ensures Head(GENESIS, Archived(files)) == LastHash(files)
  {
    if segments != [] {
      var before, f := segments[..|segments| - 1], segments[|segments| - 1].file;
      assert Flatten(segments) == Flatten(before) + f.entries;
      ChainSplits(rt, GENESIS, Flatten(before), f.entries);
      FiledIsArchived(rt, before, files[..|files| - 1]);
      OneMoreFile(rt, files);
    }
  }

  lemma {:induction false} FirstLinks(rt: Runtime, start: string, entries: seq<Entry>)
    requires Chain(rt, start, entries) && entries != []
    ensures entries[0].previousHash == start
  {
    if |entries| > 1 {
      FirstLinks(rt, start, entries[..|entries| - 1]);
    }
  }

  /** As long as no sweep dropped a purge tier, the archives followed by the hot store are the whole log, and verify. */
  lemma ArchivesKeepTheChain(rt: Runtime, steps: seq<Step>)
    requires Clocked(steps) && NothingDropped(Run(rt, steps))
    ensures var s := Run(rt, steps);
            && Archived(s.files) + s.hot == s.memory
            && ManifestsLink(s.files)
            && Chain(rt, GENESIS, Archived(s.files))
            && Chain(rt, LastHash(s.files), s.hot)
  {
    RunKeepsInv(rt, steps);
    var s := Run(rt, steps);
    ChainSplits(rt, GENESIS, Flatten(s.evicted), s.hot);
    FiledIsArchived(rt, s.evicted, s.files);
  }

  lemma {:induction false} DroppedIsMissing(segments: seq<Segment>, files: seq<ArchiveFile>)
    requires FilesAre(segments, files)
    requires forall i :: 0 <= i < |segments| ==> EntriesOf(segments[i]) != []
    ensures |Archived(files)| <= |Flatten(segments)|
    ensures (exists i :: 0 <= i < |segments| && segments[i].Dropped?) ==> |Archived(files)| < |Flatten(segments)|
  {
    if segments != [] {
      var before := segments[..|segments| - 1];
      match segments[|segments| - 1]
      case Dropped(_) =>
        DroppedIsMissing(before, files);
      case Filed(f) =>
        DroppedIsMissing(before, files[..|files| - 1]);
        if i :| 0 <= i < |segments| && segments[i].Dropped? {
          assert before[i] == segments[i];
        }
    }
  }

  /** Something dropped is followed by something filed. */
  ghost predicate HasGap(segments: seq<Segment>) {
    exists i, j :: 0 <= i < j < |segments| && segments[i].Dropped? && segments[j].Filed?
  }

  /** Whatever was dropped is the newest of the log: nothing filed and nothing hot comes after it. */
  ghost predicate OnlyTailDropped(s: System) {
    !HasGap(s.evicted) && (s.hot == [] || NothingDropped(s))
  }

  lemma GapBefore(segments: seq<Segment>)
    requires segments != []
    ensures HasGap(segments) <==>
            HasGap(segments[..|segments| - 1])
            || (segments[|segments| - 1].Filed? && exists i :: 0 <= i < |segments| - 1 && segments[i].Dropped?)
  {
    var before := segments[..|segments| - 1];
    assert forall i :: 0 <= i < |before| ==> before[i] == segments[i];
    if HasGap(before) {
      var i, j :| 0 <= i < j < |before| && before[i].Dropped? && before[j].Filed?;
      assert segments[i].Dropped? && segments[j].Filed?;
    }
  }

  /** With no gap the archives are a beginning of what was evicted; with nothing dropped, all of it. */
  lemma {:induction false} ArchivesArePrefix(segments: seq<Segment>, files: seq<ArchiveFile>)
    requires FilesAre(segments, files) && !HasGap(segments)
    ensures Archived(files) <= Flatten(segments)
    ensures (forall i :: 0 <= i < |segments| ==> segments[i].Filed?) ==> Archived(files) == Flatten(segments)
  {
    if segments != [] {
      var before := segments[..|segments| - 1];
      GapBefore(segments);
      match segments[|segments| - 1]
      case Dropped(_) => ArchivesArePrefix(before, files);
      case Filed(_) => ArchivesArePrefix(before, files[..|files| - 1]);
    }
  }

  lemma ForgedLater(rt: Runtime, a: seq<Entry>, more: seq<Entry>, b: seq<Entry>)
    requires Forged(rt, a, b)
    ensures Forged(rt, a + more, b)
  {
    var whole := a + more;
    if i, j :| 0 <= i < |a| && 0 <= j < |b| && Collision(rt, Payload(rt, a[i]), Payload(rt, b[j])) {
      assert whole[i] == a[i];
    } else if i :| 0 <= i < |a| && ComputeAuditHash(rt, a[i]) == GENESIS {
      assert whole[i] == a[i];
    }
  }

  lemma SameEndForges(rt: Runtime, whole: seq<Entry>, kept: seq<Entry>)
    requires Chain(rt, GENESIS, whole) && Chain(rt, GENESIS, kept) && |kept| < |whole|
    requires kept != [] && kept[|kept| - 1] == whole[|whole| - 1]
    ensures Forged(rt, whole, kept)
  {
    HeadFixesHistory(rt, whole, kept);
  }

  /** Evictions without empty batches, their true files, and a log that verifies. */
  ghost predicate Evictions(rt: Runtime, segments: seq<Segment>, files: seq<ArchiveFile>) {
    && FilesAre(segments, files)
    && (forall k :: 0 <= k < |segments| ==> EntriesOf(segments[k]) != [])
    && Chain(rt, GENESIS, Flatten(segments))
  }

  lemma FiledEndForges(rt: Runtime, before: seq<Segment>, f: ArchiveFile, files: seq<ArchiveFile>, i: nat)
    requires Evictions(rt, before + [Filed(f)], files) && i < |before| && before[i].Dropped?
    requires Chain(rt, GENESIS, Archived(files))
    ensures Forged(rt, Flatten(before + [Filed(f)]), Archived(files))
  {
    var segments := before + [Filed(f)];
    assert segments[..|before|] == before;
    assert segments[i] == before[i];
    assert EntriesOf(segments[|before|]) == f.entries;
    DroppedIsMissing(segments, files);
    SameEndForges(rt, Flatten(segments), Archived(files));
  }

  lemma DroppedEndForges(rt: Runtime, before: seq<Segment>, entries: seq<Entry>, kept: seq<Entry>)
    requires Forged(rt, Flatten(before), kept)
    ensures Forged(rt, Flatten(before + [Dropped(entries)]), kept)
  {
    assert (before + [Dropped(entries)])[..|before|] == before;
    ForgedLater(rt, Flatten(before), entries, kept);
  }

  lemma DroppedEndLeaves(rt: Runtime, before: seq<Segment>, entries: seq<Entry>, files: seq<ArchiveFile>)
    requires Evictions(rt, before + [Dropped(entries)], files)
    ensures Evictions(rt, before, files)
  {
    var segments := before + [Dropped(entries)];
    assert segments[..|before|] == before;
    ChainSplits(rt, GENESIS, Flatten(before), entries);
    assert forall k :: 0 <= k < |before| ==> before[k] == segments[k];
  }

  lemma {:induction false} GapBeforeDrop(rt: Runtime, before: seq<Segment>, entries: seq<Entry>,
                                         files: seq<ArchiveFile>, i: nat, j: nat)
    requires Evictions(rt, before + [Dropped(entries)], files) && Chain(rt, GENESIS, Archived(files))
    requires i < j < |before| && before[i].Dropped? && before[j].Filed?
    ensures Forged(rt, Flatten(before + [Dropped(entries)]), Archived(files))
    decreases |before|, 1
  {
    DroppedEndLeaves(rt, before, entries, files);
    GapForges(rt, before, files, i, j);
    DroppedEndForges(rt, before, entries, Archived(files));
  }

  lemma SplitLast(segments: seq<Segment>)
    requires segments != []
    ensures segments == segments[..|segments| - 1] + [segments[|segments| - 1]]
  {
  }

  /** Archives around a gap verify only by a break of the hash. */
  lemma {:induction false} GapForges(rt: Runtime, segments: seq<Segment>, files: seq<ArchiveFile>, i: nat, j: nat)
    requires Evictions(rt, segments, files) && Chain(rt, GENESIS, Archived(files))
    requires i < j < |segments| && segments[i].Dropped? && segments[j].Filed?
    ensures Forged(rt, Flatten(segments), Archived(files))
    decreases |segments|, 0
  {
    var before := segments[..|segments| - 1];
    SplitLast(segments);
    match segments[|segments| - 1]
    case Dropped(entries) => GapBeforeDrop(rt, before, entries, files, i, j);
    case Filed(f) => FiledEndForges(rt, before, f, files, i);
  }

  /** What a verifier still finds: the archives in order, then the hot store. */
  function Kept(s: System): seq<Entry> {
    Archived(s.files) + s.hot
  }

  lemma HotForges(rt: Runtime, s: System)
    requires Inv(rt, s) && s.hot != [] && !NothingDropped(s) && Chain(rt, GENESIS, Kept(s))
    ensures Forged(rt, s.memory, Kept(s))
  {
    DroppedIsMissing(s.evicted, s.files);
    SameEndForges(rt, s.memory, Kept(s));
  }

  lemma ColdForges(rt: Runtime, s: System)
    requires Inv(rt, s) && s.hot == [] && HasGap(s.evicted) && Chain(rt, GENESIS, Kept(s))
    ensures Forged(rt, s.memory, Kept(s))
  {
    assert Kept(s) == Archived(s.files) && s.memory == Flatten(s.evicted);
    var i, j :| 0 <= i < j < |s.evicted| && s.evicted[i].Dropped? && s.evicted[j].Filed?;
    GapForges(rt, s.evicted, s.files, i, j);
  }

  lemma TailVerifies(rt: Runtime, s: System)
    requires Inv(rt, s) && OnlyTailDropped(s)
    ensures Kept(s) <= s.memory && Chain(rt, GENESIS, Kept(s))
    ensures NothingDropped(s) ==> Kept(s) == s.memory
  {
    ArchivesArePrefix(s.evicted, s.files);
    if s.hot == [] {
      assert Kept(s) == Archived(s.files) && s.memory == Flatten(s.evicted);
    }
    ChainPrefix(rt, GENESIS, s.memory, |Kept(s)|);
    assert s.memory[..|Kept(s)|] == Kept(s);
  }

  lemma DroppedIsNotKept(rt: Runtime, s: System)
    requires Inv(rt, s) && !NothingDropped(s)
    ensures |Kept(s)| < |s.memory|
  {
    DroppedIsMissing(s.evicted, s.files);
  }

  /**
   * After any run archives and hot store verify from genesis if only the newest entries were dropped, and otherwise
   * only by a break of the hash. So a dropped tail is never noticed, and a drop before anything kept always is.
   */
  lemma VerifiesExactlyWhenTailDropped(rt: Runtime, steps: seq<Step>)
    requires Clocked(steps)
    ensures var s := Run(rt, steps);
            && (OnlyTailDropped(s) ==> Chain(rt, GENESIS, Kept(s)) && Kept(s) <= s.memory)
            && (!OnlyTailDropped(s) && Chain(rt, GENESIS, Kept(s)) ==> Forged(rt, s.memory, Kept(s)))
            && (Kept(s) == s.memory <==> NothingDropped(s))
  {
    var s := Run(rt, steps);
    RunKeepsInv(rt, steps);
    if OnlyTailDropped(s) {
      TailVerifies(rt, s);
    } else if Chain(rt, GENESIS, Kept(s)) {
      if s.hot != [] {
        HotForges(rt, s);
      } else {
        ColdForges(rt, s);
      }
    }
    if !NothingDropped(s) {
      DroppedIsNotKept(rt, s);
    }
  }

  // ----- Two runs that drop an entry -----

  const SHORT := Policy(0.5, 1.0)

  lemma RunAppend(rt: Runtime, steps: seq<Step>, s: Step)
    ensures Run(rt, steps + [s]) == Next(rt, Run(rt, steps), s)
  {
    assert (steps + [s])[..|steps|] == steps;
  }

  lemma OneLogged(rt: Runtime, a: LogInput)
    ensures Run(rt, [Append(0, a)]) == System([Logged(rt, GENESIS, 0, a)], [Logged(rt, GENESIS, 0, a)], [], [])
  {
    assert [Append(0, a)][..0] == [];
  }

  lemma TiersOfOne(e: Entry, now: int, tier: Tier)
    ensures InTier([e], now, SHORT, tier) == if ClassifyAge(e.timestamp, now, SHORT) == tier then [e] else []
  {
    assert [e][..0] == [];
  }

  /** A sweep that archives nothing drops the purge tier and keeps the hot one. */
  lemma SweepWithoutArchive(rt: Runtime, s: System, now: int)
    requires InTier(s.hot, now, SHORT, Archive) == []
    ensures var s' := Next(rt, s, SweepNow(now, SHORT));
            s'.memory == s.memory && s'.hot == InTier(s.hot, now, SHORT, Hot) && s'.files == s.files
  {
  }

  lemma AgesOf(e: Entry)
    requires e.timestamp == 0 || e.timestamp == 2 * DAY_MS
    ensures ClassifyAge(e.timestamp, 2 * DAY_MS, SHORT) == if e.timestamp == 0 then Purge else Hot
  {
  }

  /** One entry is logged and dropped two days later: what is left verifies, and nothing tells that it is not all. */
  lemma DroppedTailIsUnnoticed(rt: Runtime, a: LogInput)
    ensures var s := Run(rt, [Append(0, a)] + [SweepNow(2 * DAY_MS, SHORT)]);
            |s.memory| == 1 && Kept(s) == [] && Chain(rt, GENESIS, Kept(s))
  {
    var e, now := Logged(rt, GENESIS, 0, a), 2 * DAY_MS;
    OneLogged(rt, a);
    RunAppend(rt, [Append(0, a)], SweepNow(now, SHORT));
    AgesOf(e);
    TiersOfOne(e, now, Archive);
    TiersOfOne(e, now, Hot);
    SweepWithoutArchive(rt, Run(rt, [Append(0, a)]), now);
  }

  lemma TwoLogged(rt: Runtime, a: LogInput, b: LogInput)
    ensures var e := Logged(rt, GENESIS, 0, a);
            var f := Logged(rt, e.hash, 2 * DAY_MS, b);
            Run(rt, [Append(0, a)] + [Append(2 * DAY_MS, b)]) == System([e, f], [e, f], [], [])
  {
    OneLogged(rt, a);
    RunAppend(rt, [Append(0, a)], Append(2 * DAY_MS, b));
  }

  lemma NoLinkFromGenesis(rt: Runtime, previous: string, f: Entry)
    requires Links(rt, previous, f) && previous != GENESIS
    ensures !Chain(rt, GENESIS, [f])
  {
    assert [f][..0] == [];
  }

  /** A second entry is logged before the sweep: it stays, and cannot be verified from genesis any more. */
  lemma DroppedHeadIsNoticed(rt: Runtime, a: LogInput, b: LogInput)
    requires Logged(rt, GENESIS, 0, a).hash != GENESIS
    ensures var s := Run(rt, [Append(0, a)] + [Append(2 * DAY_MS, b)] + [SweepNow(2 * DAY_MS, SHORT)]);
            |s.memory| == 2 && |Kept(s)| == 1 && !Chain(rt, GENESIS, Kept(s))
  {
    var e, now := Logged(rt, GENESIS, 0, a), 2 * DAY_MS;
    var f := Logged(rt, e.hash, now, b);
    var steps := [Append(0, a)] + [Append(now, b)];
    TwoLogged(rt, a, b);
    RunAppend(rt, steps, SweepNow(now, SHORT));
    AgesOf(e);
    AgesOf(f);
    TiersOfTwo(e, f, now, Archive);
    TiersOfTwo(e, f, now, Hot);
    SweepWithoutArchive(rt, Run(rt, steps), now);
    NoLinkFromGenesis(rt, e.hash, f);
    assert Kept(Run(rt, steps + [SweepNow(now, SHORT)])) == [f];
  }

  lemma TiersOfTwo(e: Entry, f: Entry, now: int, tier: Tier)
    ensures InTier([e, f], now, SHORT, tier)
            == (if ClassifyAge(e.timestamp, now, SHORT) == tier then [e] else [])
               + (if ClassifyAge(f.timestamp, now, SHORT) == tier then [f] else [])
  {
    assert [e, f][..1] == [e];
    TiersOfOne(e, now, tier);
  }
}
