/** What a retained alert says, which events are alertable, and which alerts are kept when there are too many. */
module AlertContent {
  import opened Primitives
  import opened Alerting

  /** Severities rise from informational to critical. */
  lemma SeveritiesRise()
    ensures Rank(Info) < Rank(Low) < Rank(Medium) < Rank(High) < Rank(Critical)
  {
  }

  /** An event raises an alert exactly if the first rule that matches it is at least as severe as the threshold. */
  lemma AlertableExactly(c: Config, e: AuditEvent)
    ensures Alertable(c, e) <==>
            exists i :: 0 <= i < |c.rules| && c.rules[i].matches(e)
                        && (forall j :: 0 <= j < i ==> !c.rules[j].matches(e))
                        && (c.rules[i].severity == c.minSeverity || Rank(c.rules[i].severity) > Rank(c.minSeverity))
  {
    var m := FirstMatch(c.rules, e);
  }

  lemma {:induction false} FirstMatch(rules: seq<Rule>, e: AuditEvent) returns (m: nat)
    ensures m <= |rules| && forall k :: 0 <= k < m ==> !rules[k].matches(e)
    ensures m < |rules| ==> rules[m].matches(e)
    ensures Classify(rules, e) == if m < |rules| then Some(rules[m]) else None
  {
    if rules == [] || rules[0].matches(e) {
      m := 0;
    } else {
      m := FirstMatch(rules[1..], e);
      m := m + 1;
    }
  }

  // ----- What an alert says -----

  /** The alert says what signal `s` said: its rule, who did what to which resource, and when. */
  predicate SaysOf(a: Alert, s: Signal, stamp: int -> string) {
    && a.ruleId == s.rule.id && a.severity == s.rule.severity && a.description == s.rule.description
    && a.actor == s.event.actor && a.action == s.event.action && a.resource == s.event.resource
    && a.firstSeen == s.now
    && a.id == s.rule.id + ":" + s.event.actor + ":" + s.event.resource + ":" + stamp(s.now)
  }

  lemma FoldSays(c: Config, recent: seq<Alert>, s: Signal, a: Alert) returns (was: Option<Alert>)
    requires a in Fold(c, recent, s).recent
    ensures was == None ==> SaysOf(a, s, c.stamp)
    ensures was.Some? ==> was.value in recent
                           && a == was.value.(occurrences := a.occurrences, lastSeen := a.lastSeen)
  {
    var i := FindActive(recent, SignalKey(s), s.now, c.window);
    var out := Fold(c, recent, s).recent;
    var k :| 0 <= k < |out| && out[k] == a;
    if i.Some? {
      was := Some(recent[k]);
    } else if k == 0 {
      was := None;
    } else {
      was := Some(recent[k - 1]);
    }
  }

  /** Every retained alert says what the signal that opened it said, however often it was repeated. */
  lemma {:induction false} AlertSaysItsOpening(c: Config, s: seq<Signal>, a: Alert) returns (i: nat)
    requires a in Run(c, s).recent
    ensures i < |s| && SaysOf(a, s[i], c.stamp)
  {
    if s == [] {
      assert false;
    } else {
      var before, last := s[..|s| - 1], s[|s| - 1];
      var earlier := FoldSays(c, Run(c, before).recent, last, a);
      if earlier.Some? {
        i := AlertSaysItsOpening(c, before, earlier.value);
      } else {
        i := |s| - 1;
      }
    }
  }

  // ----- Which alerts are kept -----

  /** The list runs from the alert opened last to the one opened first. */
  ghost predicate NewestFirst(recent: seq<Alert>) {
    forall i, j :: 0 <= i < j < |recent| ==> recent[i].firstSeen >= recent[j].firstSeen
  }

  ghost predicate NoneOpenedAfter(recent: seq<Alert>, now: int) {
    forall i :: 0 <= i < |recent| ==> recent[i].firstSeen <= now
  }

  lemma UpdateKeepsOrder(recent: seq<Alert>, i: nat, a: Alert, now: int)
    requires i < |recent| && NewestFirst(recent) && NoneOpenedAfter(recent, now) && a.firstSeen == recent[i].firstSeen
    ensures NewestFirst(recent[i := a]) && NoneOpenedAfter(recent[i := a], now)
  {
  }

  lemma PushKeepsOrder(recent: seq<Alert>, a: Alert, max: nat)
    requires NewestFirst(recent) && NoneOpenedAfter(recent, a.firstSeen)
    ensures var out := Truncate([a] + recent, max);
            && NewestFirst(out) && NoneOpenedAfter(out, a.firstSeen)
            && (max > 0 ==> out == [a] + recent[..if |recent| < max then |recent| else max - 1])
  {
    var all := [a] + recent;
    assert NewestFirst(all) && NoneOpenedAfter(all, a.firstSeen);
    if |all| > max && max > 0 {
      assert all[..max] == [a] + recent[..max - 1];
    }
  }

  /** Only the oldest alerts are ever dropped: the new one is kept, and of the others those opened last. */
  lemma OldestAreDropped(c: Config, recent: seq<Alert>, s: Signal)
    requires NewestFirst(recent) && NoneOpenedAfter(recent, s.now)
    ensures var f := Fold(c, recent, s);
            && NewestFirst(f.recent) && NoneOpenedAfter(f.recent, s.now)
            && (FindActive(recent, SignalKey(s), s.now, c.window) == None && c.max > 0 ==>
                  f.recent == [f.alert] + recent[..if |recent| < c.max then |recent| else c.max - 1])
  {
    var i := FindActive(recent, SignalKey(s), s.now, c.window);
    if i.Some? {
      UpdateKeepsOrder(recent, i.value, Fold(c, recent, s).alert, s.now);
    } else {
      PushKeepsOrder(recent, NewAlert(s, c.stamp), c.max);
    }
  }

  /** So in every stream whose clock does not go back the retained alerts are ordered from newest to oldest. */
  lemma {:induction false} RetainedNewestFirst(c: Config, s: seq<Signal>)
    requires Clocked(s)
    ensures NewestFirst(Run(c, s).recent)
    ensures s != [] ==> NoneOpenedAfter(Run(c, s).recent, s[|s| - 1].now)
  {
    if s != [] {
      var before, last := s[..|s| - 1], s[|s| - 1];
      RetainedNewestFirst(c, before);
      assert before != [] ==> before[|before| - 1].now <= last.now;
      OldestAreDropped(c, Run(c, before).recent, last);
    }
  }
}
