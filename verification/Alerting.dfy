/** Folding of audit alerts: one alert, and one page, for every burst of like events. */
module Alerting {
  import opened Primitives

  datatype Severity = Info | Low | Medium | High | Critical

  function Rank(s: Severity): nat {
    match s
    case Info => 0
    case Low => 1
    case Medium => 2
    case High => 3
    case Critical => 4
  }

  /** `amount` is the finite number that the details give, if they give one. */
  datatype AuditEvent = AuditEvent(
    actor: string, action: string, resource: string, outcome: string, requestPath: string, amount: Option<real>)

  datatype Rule = Rule(id: string, severity: Severity, description: string, matches: AuditEvent -> bool)

  datatype Alert = Alert(
    id: string, ruleId: string, severity: Severity, description: string, occurrences: nat,
    firstSeen: int, lastSeen: int, actor: string, action: string, resource: string)

  /** What alerts are folded by. */
  datatype Key = Key(ruleId: string, actor: string, resource: string)

  function KeyOf(a: Alert): Key {
    Key(a.ruleId, a.actor, a.resource)
  }

  /** The first rule that matches. */
  function Classify(rules: seq<Rule>, e: AuditEvent): Option<Rule> {
    if rules == [] then None
    else if rules[0].matches(e) then Some(rules[0])
    else Classify(rules[1..], e)
  }

  /** An event that reached the alerting threshold. */
  datatype Signal = Signal(rule: Rule, event: AuditEvent, now: int)

  function SignalKey(s: Signal): Key {
    Key(s.rule.id, s.event.actor, s.event.resource)
  }

  /** The first retained alert with this key that was seen within the window. */
  function FindActive(recent: seq<Alert>, k: Key, now: int, window: int): (i: Option<nat>)
    ensures i.Some? ==> i.value < |recent| && KeyOf(recent[i.value]) == k && now - recent[i.value].lastSeen <= window
  {
    if recent == [] then None
    else if KeyOf(recent[0]) == k && now - recent[0].lastSeen <= window then Some(0)
    else
      match FindActive(recent[1..], k, now, window)
      case None => None
      case Some(j) => Some(j + 1)
  }

  function NewAlert(s: Signal, stamp: int -> string): Alert {
    Alert(s.rule.id + ":" + s.event.actor + ":" + s.event.resource + ":" + stamp(s.now), s.rule.id, s.rule.severity,
          s.rule.description, 1, s.now, s.now, s.event.actor, s.event.action, s.event.resource)
  }

  function Truncate(recent: seq<Alert>, max: nat): seq<Alert> {
    if |recent| > max then recent[..max] else recent
  }

  datatype Config = Config(rules: seq<Rule>, minSeverity: Severity, window: int, max: nat, stamp: int -> string)

  datatype Folded = Folded(recent: seq<Alert>, alert: Alert)

  /** Repeats update the active alert; anything else goes in front as a new one, and the oldest beyond `max` go. */
  function Fold(c: Config, recent: seq<Alert>, s: Signal): Folded {
    match FindActive(recent, SignalKey(s), s.now, c.window)
    case Some(i) =>
      var a := recent[i].(occurrences := recent[i].occurrences + 1, lastSeen := s.now);
      Folded(recent[i := a], a)
    case None =>
      Folded(Truncate([NewAlert(s, c.stamp)] + recent, c.max), NewAlert(s, c.stamp))
  }

  predicate Alertable(c: Config, e: AuditEvent) {
    var r := Classify(c.rules, e);
    r.Some? && Rank(r.value.severity) >= Rank(c.minSeverity)
  }

  class AuditAlerter {
    const config: Config
    var recent: seq<Alert>

    constructor (config: Config)
      ensures this.config == config && recent == []
    {
      this.config := config;
      recent := [];
    }

    /** `paged` says whether the alert went out to the sinks. */
    method Dispatch(event: AuditEvent, now: int) returns (alert: Option<Alert>, paged: bool)
      modifies this
      ensures !Alertable(config, event) ==> alert == None && !paged && recent == old(recent)
      ensures Alertable(config, event) ==>
                var f := Fold(config, old(recent), Signal(Classify(config.rules, event).value, event, now));
                alert == Some(f.alert) && recent == f.recent && (paged <==> f.alert.occurrences <= 1)
    {
      var rule := Classify(config.rules, event);
      if rule == None || Rank(rule.value.severity) < Rank(config.minSeverity) {
        return None, false;
      }
      var a := Dedupe(Signal(rule.value, event, now));
      if a.occurrences > 1 {
        return Some(a), false;
      }
      return Some(a), true;
    }

    method Dedupe(s: Signal) returns (alert: Alert)
      modifies this
      ensures Folded(recent, alert) == Fold(config, old(recent), s)
    {
      var i := 0;
      while i < |recent|
        invariant 0 <= i <= |recent|
        invariant FindActive(recent, SignalKey(s), s.now, config.window)
                  == match FindActive(recent[i..], SignalKey(s), s.now, config.window)
                     case None => None
                     case Some(j) => Some(i + j)
      {
        var candidate := recent[i];
        if candidate.ruleId == s.rule.id && candidate.actor == s.event.actor && candidate.resource == s.event.resource
           && s.now - candidate.lastSeen <= config.window {
          alert := candidate.(occurrences := candidate.occurrences + 1);
          alert := alert.(lastSeen := s.now);
          recent := recent[i := alert];
          return;
        }
        assert recent[i..][1..] == recent[i + 1..];
        i := i + 1;
      }
      alert := NewAlert(s, config.stamp);
      recent := [alert] + recent;
      if |recent| > config.max {
        recent := recent[..config.max];
      }
    }
  }

  // ----- Streams -----

  /** The retained alerts after a stream of signals, and how many pages went out. */
  datatype Board = Board(recent: seq<Alert>, pages: nat)

  function Run(c: Config, s: seq<Signal>): Board {
    if s == [] then Board([], 0)
    else
      var b := Run(c, s[..|s| - 1]);
      var f := Fold(c, b.recent, s[|s| - 1]);
      Board(f.recent, b.pages + if f.alert.occurrences <= 1 then 1 else 0)
  }

  ghost predicate Clocked(s: seq<Signal>) {
    forall i, j :: 0 <= i < j < |s| ==> s[i].now <= s[j].now
  }

  /** When signals of key `k` arrived. */
  function Times(s: seq<Signal>, k: Key): seq<int> {
    if s == [] then []
    else
      var last := s[|s| - 1];
      Times(s[..|s| - 1], k) + if SignalKey(last) == k then [last.now] else []
  }

  function Last(t: seq<int>): int
    requires t != []
  {
    t[|t| - 1]
  }

  /** Adds a time to the newest run if it is within the window, else starts a new run. */
  function Extend(r: seq<seq<int>>, now: int, window: int): (q: seq<seq<int>>)
    ensures q != [] && q[0] != [] && Last(q[0]) == now
  {
    if r != [] && r[0] != [] && now - Last(r[0]) <= window then [r[0] + [now]] + r[1..] else [[now]] + r
  }

  /** Times split at every gap beyond the window, newest run first. */
  function Bursts(t: seq<int>, window: int): (r: seq<seq<int>>)
    ensures r == [] <==> t == []
    ensures t != [] ==> r[0] != [] && Last(r[0]) == Last(t)
  {
    if t == [] then [] else Extend(Bursts(t[..|t| - 1], window), Last(t), window)
  }

  function Retained(recent: seq<Alert>, k: Key): seq<Alert> {
    if recent == [] then []
    else (if KeyOf(recent[0]) == k then [recent[0]] else []) + Retained(recent[1..], k)
  }

  /** The alert tells the burst: when it began, when it was last seen, how many events it holds. */
  ghost predicate Tells(a: Alert, burst: seq<int>) {
    burst != [] && a.firstSeen == burst[0] && a.lastSeen == burst[|burst| - 1] && a.occurrences == |burst|
  }

  ghost predicate TellAll(alerts: seq<Alert>, bursts: seq<seq<int>>) {
    |alerts| == |bursts| && forall i :: 0 <= i < |alerts| ==> Tells(alerts[i], bursts[i])
  }

  /** The retained alerts of every key are exactly its bursts. */
  ghost predicate Exact(c: Config, recent: seq<Alert>, s: seq<Signal>) {
    forall k :: TellAll(Retained(recent, k), Bursts(Times(s, k), c.window))
  }

  /** Signal `s` opens a burst after the stream `before`. */
  predicate Opens(c: Config, before: seq<Signal>, s: Signal) {
    var t := Times(before, SignalKey(s));
    t == [] || s.now - t[|t| - 1] > c.window
  }

  function BurstCount(c: Config, s: seq<Signal>): nat {
    if s == [] then 0
    else BurstCount(c, s[..|s| - 1]) + if Opens(c, s[..|s| - 1], s[|s| - 1]) then 1 else 0
  }

  // ----- One signal -----

  lemma {:induction false} UpdateRetained(recent: seq<Alert>, i: nat, a: Alert, k: Key)
    requires i < |recent| && KeyOf(a) == KeyOf(recent[i]) != k
    ensures Retained(recent[i := a], k) == Retained(recent, k)
  {
    if i == 0 {
      assert recent[i := a][1..] == recent[1..];
    } else {
      UpdateRetained(recent[1..], i - 1, a, k);
      assert recent[i := a][1..] == recent[1..][i - 1 := a];
    }
  }

  /** If the newest alert of `k` is active it is the one found, and its update is one of the retained list's head. */
  lemma {:induction false} NewestIsFound(recent: seq<Alert>, k: Key, now: int, window: int, a: Alert)
    requires Retained(recent, k) != [] && now - Retained(recent, k)[0].lastSeen <= window && KeyOf(a) == k
    ensures var i := FindActive(recent, k, now, window);
            && i.Some? && recent[i.value] == Retained(recent, k)[0]
            && Retained(recent[i.value := a], k) == [a] + Retained(recent, k)[1..]
  {
    if KeyOf(recent[0]) == k {
      assert recent[0 := a][1..] == recent[1..];
    } else {
      NewestIsFound(recent[1..], k, now, window, a);
      var i := FindActive(recent[1..], k, now, window).value;
      assert recent[i + 1 := a][1..] == recent[1..][i := a];
    }
  }

  lemma {:induction false} NoneActive(recent: seq<Alert>, k: Key, now: int, window: int)
    requires forall i :: 0 <= i < |Retained(recent, k)| ==> now - Retained(recent, k)[i].lastSeen > window
    ensures FindActive(recent, k, now, window) == None
  {
    if recent != [] {
      var r := Retained(recent[1..], k);
      forall i | 0 <= i < |r| ensures now - r[i].lastSeen > window {
        assert r[i] == Retained(recent, k)[if KeyOf(recent[0]) == k then i + 1 else i];
      }
      assert KeyOf(recent[0]) == k ==> Retained(recent, k)[0] == recent[0];
      NoneActive(recent[1..], k, now, window);
    }
  }

  /** No time in `t` is after `now`, and `t` never goes back. */
  ghost predicate Ordered(t: seq<int>, now: int) {
    && (forall i, j :: 0 <= i < j < |t| ==> t[i] <= t[j])
    && (forall i :: 0 <= i < |t| ==> t[i] <= now)
  }

  lemma {:induction false} TimesAreClocked(s: seq<Signal>, k: Key, now: int)
    requires Clocked(s) && (s != [] ==> s[|s| - 1].now <= now)
    ensures Ordered(Times(s, k), now)
  {
    if s != [] {
      var before, last := s[..|s| - 1], s[|s| - 1];
      if before != [] {
        assert before[|before| - 1] == s[|s| - 2];
      }
      TimesAreClocked(before, k, last.now);
    }
  }

  lemma {:induction false} BurstsEndByNow(t: seq<int>, window: int, now: int)
    requires Ordered(t, now)
    ensures forall b :: b in Bursts(t, window) ==> b != [] && Last(b) <= Last(t)
  {
    if t != [] {
      var before := t[..|t| - 1];
      BurstsEndByNow(before, window, now);
      if before != [] {
        assert Last(before) == t[|t| - 2] <= Last(t);
      }
      var r, q := Bursts(before, window), Bursts(t, window);
      forall b | b in q ensures b != [] && Last(b) <= Last(t) {
        assert b == q[0] || b in r;
      }
    }
  }

  lemma TimesAfter(before: seq<Signal>, s: Signal, k: Key)
    ensures Times(before + [s], k) == if SignalKey(s) == k then Times(before, k) + [s.now] else Times(before, k)
  {
    assert (before + [s])[..|before|] == before;
    assert Times(before, k) + [] == Times(before, k);
  }

  lemma BurstsAfter(t: seq<int>, now: int, window: int)
    ensures Bursts(t + [now], window) == Extend(Bursts(t, window), now, window)
  {
    assert (t + [now])[..|t|] == t;
  }

  lemma AllInactive(c: Config, recent: seq<Alert>, before: seq<Signal>, s: Signal)
    requires Exact(c, recent, before) && Clocked(before) && Opens(c, before, s)
    requires before != [] ==> before[|before| - 1].now <= s.now
    ensures FindActive(recent, SignalKey(s), s.now, c.window) == None
  {
    var k := SignalKey(s);
    var t, r := Times(before, k), Retained(recent, k);
    var b := Bursts(t, c.window);
    assert TellAll(r, b);
    TimesAreClocked(before, k, s.now);
    BurstsEndByNow(t, c.window, s.now);
    forall i | 0 <= i < |r| ensures s.now - r[i].lastSeen > c.window {
      assert Tells(r[i], b[i]) && b[i] in b;
    }
    NoneActive(recent, k, s.now, c.window);
  }

  /** A signal that opens a burst leads its key's list with a new alert. */
  lemma OpeningSignal(c: Config, recent: seq<Alert>, before: seq<Signal>, s: Signal, a: Alert)
    requires Exact(c, recent, before) && Opens(c, before, s)
    requires KeyOf(a) == SignalKey(s) && Tells(a, [s.now])
    ensures Exact(c, [a] + recent, before + [s])
  {
    assert ([a] + recent)[1..] == recent;
    forall j ensures TellAll(Retained([a] + recent, j), Bursts(Times(before + [s], j), c.window)) {
      TimesAfter(before, s, j);
      var r, b := Retained(recent, j), Bursts(Times(before, j), c.window);
      assert TellAll(r, b);
      if j == SignalKey(s) {
        BurstsAfter(Times(before, j), s.now, c.window);
        assert Retained([a] + recent, j) == [a] + r;
        assert Extend(b, s.now, c.window) == [[s.now]] + b;
      } else {
        assert Retained([a] + recent, j) == r;
      }
    }
  }

  /** The alert `a` after one more event at `now`. */
  function Repeated(a: Alert, now: int): Alert {
    a.(occurrences := a.occurrences + 1, lastSeen := now)
  }

  lemma ExtendTells(r: seq<Alert>, b: seq<seq<int>>, now: int, window: int)
    requires TellAll(r, b) && r != [] && b[0] != [] && now - Last(b[0]) <= window
    ensures TellAll([Repeated(r[0], now)] + r[1..], Extend(b, now, window))
    ensures now - r[0].lastSeen <= window && r[0].occurrences >= 1
  {
    assert Tells(r[0], b[0]);
    assert Tells(Repeated(r[0], now), b[0] + [now]);
  }

  /** Any other signal finds its key's newest alert and extends it. */
  lemma RepeatSignal(c: Config, recent: seq<Alert>, before: seq<Signal>, s: Signal)
    requires Exact(c, recent, before) && !Opens(c, before, s)
    ensures var i := FindActive(recent, SignalKey(s), s.now, c.window);
            && i.Some? && recent[i.value].occurrences >= 1
            && Exact(c, recent[i.value := Repeated(recent[i.value], s.now)], before + [s])
  {
    var k := SignalKey(s);
    var t, r := Times(before, k), Retained(recent, k);
    var b := Bursts(t, c.window);
    assert TellAll(r, b);
    ExtendTells(r, b, s.now, c.window);
    var a := Repeated(r[0], s.now);
    RetainedHaveKey(recent, k);
    NewestIsFound(recent, k, s.now, c.window, a);
    var i := FindActive(recent, k, s.now, c.window).value;
    forall j ensures TellAll(Retained(recent[i := a], j), Bursts(Times(before + [s], j), c.window)) {
      TimesAfter(before, s, j);
      if j == k {
        BurstsAfter(t, s.now, c.window);
      } else {
        UpdateRetained(recent, i, a, j);
        assert TellAll(Retained(recent, j), Bursts(Times(before, j), c.window));
      }
    }
  }

  lemma {:induction false} RetainedHaveKey(recent: seq<Alert>, k: Key)
    ensures forall i :: 0 <= i < |Retained(recent, k)| ==> KeyOf(Retained(recent, k)[i]) == k
  {
    if recent != [] {
      RetainedHaveKey(recent[1..], k);
    }
  }

  // ----- Whole streams -----

  function Occurrences(recent: seq<Alert>): nat {
    if recent == [] then 0 else recent[0].occurrences + Occurrences(recent[1..])
  }

  lemma {:induction false} OccurrencesUpdate(recent: seq<Alert>, i: nat, a: Alert)
    requires i < |recent| && a.occurrences == recent[i].occurrences + 1
    ensures Occurrences(recent[i := a]) == Occurrences(recent) + 1
  {
    if i == 0 {
      assert recent[i := a][1..] == recent[1..];
    } else {
      OccurrencesUpdate(recent[1..], i - 1, a);
      assert recent[i := a][1..] == recent[1..][i - 1 := a];
    }
  }

  /** What one more signal must do to a board that is exact: nothing lost, a page exactly for an opening. */
  ghost predicate Follows(c: Config, recent: seq<Alert>, before: seq<Signal>, s: Signal, f: Folded) {
    && Exact(c, f.recent, before + [s])
    && (f.alert.occurrences <= 1 <==> Opens(c, before, s))
    && |f.recent| == |recent| + (if Opens(c, before, s) then 1 else 0)
    && Occurrences(f.recent) == Occurrences(recent) + 1
  }

  lemma OpeningFollows(c: Config, recent: seq<Alert>, before: seq<Signal>, s: Signal)
    requires Exact(c, recent, before) && Clocked(before) && Opens(c, before, s) && |recent| < c.max
    requires before != [] ==> before[|before| - 1].now <= s.now
    ensures Follows(c, recent, before, s, Fold(c, recent, s))
  {
    AllInactive(c, recent, before, s);
    var a := NewAlert(s, c.stamp);
    OpeningSignal(c, recent, before, s, a);
    assert ([a] + recent)[1..] == recent;
    assert Fold(c, recent, s) == Folded([a] + recent, a);
  }

  lemma RepeatFollows(c: Config, recent: seq<Alert>, before: seq<Signal>, s: Signal)
    requires Exact(c, recent, before) && !Opens(c, before, s)
    ensures Follows(c, recent, before, s, Fold(c, recent, s))
  {
    RepeatSignal(c, recent, before, s);
    var i := FindActive(recent, SignalKey(s), s.now, c.window).value;
    var a := Repeated(recent[i], s.now);
    OccurrencesUpdate(recent, i, a);
    assert Fold(c, recent, s) == Folded(recent[i := a], a);
  }

  lemma SignalFollows(c: Config, recent: seq<Alert>, before: seq<Signal>, s: Signal)
    requires Exact(c, recent, before) && Clocked(before) && (Opens(c, before, s) ==> |recent| < c.max)
    requires before != [] ==> before[|before| - 1].now <= s.now
    ensures Follows(c, recent, before, s, Fold(c, recent, s))
  {
    if Opens(c, before, s) {
      OpeningFollows(c, recent, before, s);
    } else {
      RepeatFollows(c, recent, before, s);
    }
  }

  lemma NextAlert(c: Config, before: seq<Signal>, s: Signal)
    requires Clocked(before + [s]) && Clocked(before) && BurstCount(c, before + [s]) <= c.max
    requires var b := Run(c, before);
             Exact(c, b.recent, before) && |b.recent| == b.pages == BurstCount(c, before)
             && Occurrences(b.recent) == |before|
    ensures var b := Run(c, before + [s]);
            Exact(c, b.recent, before + [s]) && |b.recent| == b.pages == BurstCount(c, before + [s])
            && Occurrences(b.recent) == |before| + 1
  {
    var whole := before + [s];
    assert whole[..|before|] == before && whole[|before|] == s;
    assert before != [] ==> whole[|before| - 1].now <= whole[|before|].now;
    SignalFollows(c, Run(c, before).recent, before, s);
  }

  /**
   * While the stream has no more bursts than the alerter retains, the alerts of every key are exactly its bursts,
   * one page went out per burst, and no event is missing from the counts.
   */
  lemma {:induction false} AlertsAreBursts(c: Config, s: seq<Signal>)
    requires Clocked(s) && BurstCount(c, s) <= c.max
    ensures var b := Run(c, s);
            && Exact(c, b.recent, s)
            && |b.recent| == b.pages == BurstCount(c, s)
            && Occurrences(b.recent) == |s|
  {
    if s != [] {
      var before, last := s[..|s| - 1], s[|s| - 1];
      AlertsAreBursts(c, before);
      assert s == before + [last];
      NextAlert(c, before, last);
    }
  }

  lemma FoldIsBounded(c: Config, recent: seq<Alert>, s: Signal)
    requires |recent| <= c.max
    ensures |Fold(c, recent, s).recent| <= c.max
  {
  }

  lemma {:induction false} RetainsAtMostMax(c: Config, s: seq<Signal>)
    ensures |Run(c, s).recent| <= c.max
  {
    if s != [] {
      RetainsAtMostMax(c, s[..|s| - 1]);
      FoldIsBounded(c, Run(c, s[..|s| - 1]).recent, s[|s| - 1]);
    }
  }

  lemma {:induction false} RemoveOne(xs: seq<Alert>, k: Key) returns (rest: seq<Alert>)
    requires Retained(xs, k) != []
    ensures |rest| == |xs| - 1
    ensures forall j :: |Retained(rest, j)| == |Retained(xs, j)| - if j == k then 1 else 0
  {
    if KeyOf(xs[0]) == k {
      rest := xs[1..];
    } else {
      var r := RemoveOne(xs[1..], k);
      rest := [xs[0]] + r;
      assert rest[1..] == r;
    }
  }

  /** Lists that agree on how many alerts each key has are equally long. */
  lemma {:induction false} SameLength(xs: seq<Alert>, ys: seq<Alert>)
    requires forall k :: |Retained(xs, k)| == |Retained(ys, k)|
    ensures |xs| == |ys|
  {
    if xs == [] {
      assert ys != [] ==> Retained(ys, KeyOf(ys[0])) != [];
    } else {
      var k := KeyOf(xs[0]);
      assert |Retained(xs, k)| == |Retained(ys, k)|;
      var rest := RemoveOne(ys, k);
      forall j ensures |Retained(xs[1..], j)| == |Retained(rest, j)| {
        assert |Retained(xs, j)| == |Retained(ys, j)|;
      }
      SameLength(xs[1..], rest);
    }
  }

  lemma {:induction false} BurstCountIgnoresMax(c: Config, d: Config, s: seq<Signal>)
    requires d == c.(max := d.max)
    ensures BurstCount(c, s) == BurstCount(d, s) <= |s|
  {
    if s != [] {
      BurstCountIgnoresMax(c, d, s[..|s| - 1]);
    }
  }

  /** The alerts of every key are exactly its bursts if and only if the stream has at most `max` bursts in all. */
  lemma ExactlyUpToMax(c: Config, s: seq<Signal>)
    requires Clocked(s)
    ensures Exact(c, Run(c, s).recent, s) <==> BurstCount(c, s) <= c.max
  {
    if BurstCount(c, s) <= c.max {
      AlertsAreBursts(c, s);
    } else if Exact(c, Run(c, s).recent, s) {
      var d := c.(max := |s|);
      BurstCountIgnoresMax(c, d, s);
      AlertsAreBursts(d, s);
      var xs, ys := Run(c, s).recent, Run(d, s).recent;
      forall k ensures |Retained(xs, k)| == |Retained(ys, k)| {
        assert TellAll(Retained(xs, k), Bursts(Times(s, k), c.window));
        assert TellAll(Retained(ys, k), Bursts(Times(s, k), d.window));
      }
      SameLength(xs, ys);
      RetainsAtMostMax(c, s);
    }
  }

  // ----- What a burst is -----

  /** Bursts, newest first, written out oldest first. */
  function Join(r: seq<seq<int>>): seq<int> {
    if r == [] then [] else Join(r[1..]) + r[0]
  }

  /** A run whose gaps all stay within the window. */
  ghost predicate Tight(b: seq<int>, window: int) {
    b != [] && forall j :: 0 < j < |b| ==> b[j] - b[j - 1] <= window
  }

  /** `r` cuts `t` into tight runs with a gap beyond the window between neighbours. */
  ghost predicate Splits(t: seq<int>, r: seq<seq<int>>, window: int) {
    && Join(r) == t
    && (forall i :: 0 <= i < |r| ==> Tight(r[i], window))
    && (forall i :: 0 < i < |r| ==> r[i - 1][0] - Last(r[i]) > window)
  }

  lemma ExtendSplits(t: seq<int>, r: seq<seq<int>>, now: int, window: int)
    requires Splits(t, r, window)
    ensures Splits(t + [now], Extend(r, now, window), window)
  {
    var q := Extend(r, now, window);
    if r != [] && now - Last(r[0]) <= window {
      assert Tight(r[0], window);
      assert q[1..] == r[1..] && q[0] == r[0] + [now];
      assert Join(r[1..]) + (r[0] + [now]) == t + [now];
      forall i | 0 < i < |q| ensures q[i - 1][0] - Last(q[i]) > window {
        assert q[i] == r[i] && q[i - 1][0] == r[i - 1][0];
      }
    } else {
      assert q[1..] == r;
    }
  }

  lemma {:induction false} BurstsSplit(t: seq<int>, window: int)
    ensures Splits(t, Bursts(t, window), window)
  {
    if t != [] {
      var before := t[..|t| - 1];
      BurstsSplit(before, window);
      ExtendSplits(before, Bursts(before, window), Last(t), window);
      assert t == before + [Last(t)];
    }
  }

  lemma ShrinkRun(t: seq<int>, r: seq<seq<int>>, window: int) returns (q: seq<seq<int>>)
    requires Splits(t, r, window) && r != [] && |r[0]| > 1
    ensures t != [] && Splits(t[..|t| - 1], q, window) && r == Extend(q, Last(t), window)
  {
    var n := |r[0]| - 1;
    assert Tight(r[0], window);
    assert t == Join(r[1..]) + r[0] && Last(t) == r[0][n];
    q := [r[0][..n]] + r[1..];
    assert q[1..] == r[1..] && r[0] == r[0][..n] + [Last(t)];
    assert Join(q) == t[..|t| - 1];
    assert Tight(q[0], window);
    forall i | 0 < i < |q| ensures q[i - 1][0] - Last(q[i]) > window {
      assert q[i] == r[i] && q[i - 1][0] == r[i - 1][0];
    }
    assert r[0][n] - r[0][n - 1] <= window;
    assert r == [q[0] + [Last(t)]] + q[1..];
  }

  lemma DropRun(t: seq<int>, r: seq<seq<int>>, window: int)
    requires Splits(t, r, window) && r != [] && |r[0]| == 1
    ensures t != [] && Splits(t[..|t| - 1], r[1..], window) && r == Extend(r[1..], Last(t), window)
  {
    var q := r[1..];
    assert t == Join(q) + r[0];
    assert r[0] == [Last(t)] && Join(q) == t[..|t| - 1];
    forall i | 0 < i < |q| ensures q[i - 1][0] - Last(q[i]) > window {
      assert q[i] == r[i + 1] && q[i - 1] == r[i];
    }
    assert q != [] ==> r[0][0] - Last(r[1]) > window;
    assert r == [[Last(t)]] + q;
  }

  /** Taking the last time off a cut leaves a cut that `Extend` restores. */
  lemma ShrinkSplits(t: seq<int>, r: seq<seq<int>>, window: int) returns (q: seq<seq<int>>)
    requires Splits(t, r, window) && r != []
    ensures t != [] && Splits(t[..|t| - 1], q, window) && r == Extend(q, Last(t), window)
  {
    assert Tight(r[0], window);
    if |r[0]| > 1 {
      q := ShrinkRun(t, r, window);
    } else {
      q := r[1..];
      DropRun(t, r, window);
    }
  }

  /** The cut is unique: bursts are the maximal runs. */
  lemma {:induction false} BurstsAreTheOnlySplit(t: seq<int>, r: seq<seq<int>>, window: int)
    requires Splits(t, r, window)
    ensures r == Bursts(t, window)
    decreases |t|
  {
    if r != [] {
      var q := ShrinkSplits(t, r, window);
      BurstsAreTheOnlySplit(t[..|t| - 1], q, window);
    }
  }

  /** A signal opens a burst exactly when no earlier signal of its key lies within the window. */
  lemma {:induction false} OpensMeans(c: Config, before: seq<Signal>, s: Signal)
    requires Clocked(before)
    ensures Opens(c, before, s) <==>
            forall i :: 0 <= i < |before| && SignalKey(before[i]) == SignalKey(s) ==> s.now - before[i].now > c.window
  {
    if before != [] {
      var prior, last := before[..|before| - 1], before[|before| - 1];
      OpensMeans(c, prior, s);
      if SignalKey(last) == SignalKey(s) {
        assert forall i :: 0 <= i < |before| ==> before[i].now <= last.now;
      } else {
        assert Times(before, SignalKey(s)) == Times(prior, SignalKey(s));
        assert forall i :: 0 <= i < |prior| ==> prior[i] == before[i];
      }
    }
  }
}
