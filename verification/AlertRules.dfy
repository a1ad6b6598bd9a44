/** Whether the first matching alert rule is the most severe one. */
module AlertRules {
  import opened Primitives
  import opened Alerting

  /** The first match for `e`, if there is one, is at least as severe as every rule that matches `e`. */
  predicate MostSevere(rules: seq<Rule>, e: AuditEvent) {
    var found := Classify(rules, e);
    forall j :: 0 <= j < |rules| && rules[j].matches(e) ==>
      found.Some? && Rank(found.value.severity) >= Rank(rules[j].severity)
  }

  lemma {:induction false} ClassifyIsFirst(rules: seq<Rule>, e: AuditEvent) returns (m: nat)
    ensures m <= |rules| && forall k :: 0 <= k < m ==> !rules[k].matches(e)
    ensures m < |rules| ==> rules[m].matches(e)
    ensures Classify(rules, e) == if m < |rules| then Some(rules[m]) else None
  {
    if rules == [] || rules[0].matches(e) {
      m := 0;
    } else {
      m := ClassifyIsFirst(rules[1..], e);
      m := m + 1;
    }
  }

  /** Wherever a rule and a more severe later one both match, a rule before them matches too. */
  ghost predicate NeverOvertaken(rules: seq<Rule>) {
    forall i, j, e: AuditEvent ::
      (0 <= i < j < |rules| && Rank(rules[i].severity) < Rank(rules[j].severity)
       && rules[i].matches(e) && rules[j].matches(e))
      ==> exists k :: 0 <= k < i && rules[k].matches(e)
  }

  /** The first match is the most severe for every event if and only if no rule is overtaken by a later one. */
  lemma FirstIsMostSevereExactly(rules: seq<Rule>)
    ensures (forall e :: MostSevere(rules, e)) <==> NeverOvertaken(rules)
  {
    if NeverOvertaken(rules) {
      forall e ensures MostSevere(rules, e) {
        var m := ClassifyIsFirst(rules, e);
      }
    }
    if forall e :: MostSevere(rules, e) {
      forall i, j, e: AuditEvent | 0 <= i < j < |rules| && Rank(rules[i].severity) < Rank(rules[j].severity)
                                   && rules[i].matches(e) && rules[j].matches(e)
        ensures exists k :: 0 <= k < i && rules[k].matches(e)
      {
        var m := ClassifyIsFirst(rules, e);
        assert MostSevere(rules, e);
      }
    }
  }

  /** The most severe rules come first. */
  predicate SevereFirst(rules: seq<Rule>) {
    forall i, j :: 0 <= i < j < |rules| ==> Rank(rules[i].severity) >= Rank(rules[j].severity)
  }

  function WithMatches(rules: seq<Rule>, ms: seq<AuditEvent -> bool>): (out: seq<Rule>)
    requires |ms| == |rules|
    ensures |out| == |rules| && forall i :: 0 <= i < |out| ==> out[i] == rules[i].(matches := ms[i])
  {
    seq(|rules|, i requires 0 <= i < |rules| => rules[i].(matches := ms[i]))
  }

  /** The severities alone guarantee it, whatever the rules match, if and only if they never rise along the list. */
  lemma OrderGuaranteesExactly(rules: seq<Rule>)
    ensures SevereFirst(rules)
            <==> forall ms: seq<AuditEvent -> bool>, e: AuditEvent :: |ms| == |rules| ==>
                   MostSevere(WithMatches(rules, ms), e)
  {
    if SevereFirst(rules) {
      forall ms: seq<AuditEvent -> bool>, e: AuditEvent | |ms| == |rules|
        ensures MostSevere(WithMatches(rules, ms), e)
      {
        var m := ClassifyIsFirst(WithMatches(rules, ms), e);
      }
    } else {
      var i, j :| 0 <= i < j < |rules| && Rank(rules[i].severity) < Rank(rules[j].severity);
      var ms := seq(|rules|, k => (e: AuditEvent) => k == i || k == j);
      var e := AuditEvent("", "", "", "", "", None);
      var m := ClassifyIsFirst(WithMatches(rules, ms), e);
      assert WithMatches(rules, ms)[i].matches(e) && WithMatches(rules, ms)[j].matches(e);
      assert !MostSevere(WithMatches(rules, ms), e);
    }
  }

  // ----- The rules as shipped -----

  /** `toLowerCase` on ASCII letters. */
  function Lower(s: string): (t: string)
    ensures |t| == |s|
    ensures forall i :: 0 <= i < |s| ==> t[i] == if 'A' <= s[i] <= 'Z' then (s[i] as int + 32) as char else s[i]
  {
    seq(|s|, i requires 0 <= i < |s| => if 'A' <= s[i] <= 'Z' then (s[i] as int + 32) as char else s[i])
  }

  predicate OccursAt(s: string, needle: string, i: nat) {
    i + |needle| <= |s| && s[i..i + |needle|] == needle
  }

  predicate Includes(s: string, needle: string) {
    exists i :: 0 <= i <= |s| && OccursAt(s, needle, i)
  }

  function Haystack(e: AuditEvent): string {
    Lower(Lower(e.action) + " " + Lower(e.resource) + " " + e.requestPath)
  }

  predicate Has(e: AuditEvent, needles: seq<string>) {
    exists n :: n in needles && Includes(Haystack(e), n)
  }

  function CriticalEventRules(largePayment: real): seq<Rule> {
    [ Rule("audit.integrity_failure", Critical, "Audit log integrity check reported a broken hash chain",
           (e: AuditEvent) => Has(e, ["audit.integrity", "chain.verify", "tamper"])),
      Rule("audit.suspicious_flag", High, "An audit entry was flagged as suspicious",
           (e: AuditEvent) => Includes(Lower(e.action), "audit.suspicious")),
      Rule("privilege.escalation", Critical, "Role, permission or impersonation change",
           (e: AuditEvent) => Has(e, ["roles", "permissions", "impersonate", "privilege"])),
      Rule("auth.secret_rotation", High, "API key or secret created, rotated or revoked",
           (e: AuditEvent) => Has(e, ["api-keys", "apikey", "secrets", "rotate", "credential"])),
      Rule("auth.failure", Medium, "Failed authentication or authorization attempt",
           (e: AuditEvent) => Has(e, ["auth", "login", "2fa", "mfa", "otp", "token", "oauth"])
                              && e.outcome == "failure"),
      Rule("payment.large_value", High, "Payment, transfer payout or refund at or above the threshold",
           (e: AuditEvent) => Has(e, ["payment", "transfer", "payout", "withdrawal", "refund", "escrow"])
                              && e.amount.Some? && e.amount.value >= largePayment),
      Rule("payment.failure", Medium, "Failed payment, transfer or payout operation",
           (e: AuditEvent) => Has(e, ["payment", "transfer", "payout", "refund"]) && e.outcome == "failure"),
      Rule("compliance.sanctions_hit", Critical, "Sanctions screening or AML rule produced a hit",
           (e: AuditEvent) => Has(e, ["sanctions", "aml", "ofac"])),
      Rule("audit.mutation", High, "Audit log mutation or deletion attempt",
           (e: AuditEvent) => Includes(Lower(e.action), "audit") && Has(e, ["delete", "clear", "purge", "export"])) ]
  }

  function FlaggedRoleChange(): AuditEvent {
    AuditEvent("a", "audit.suspicious", "roles", "success", "", None)
  }

  const FLAGGED_TEXT := "audit.suspicious roles "

  lemma LowerStays(s: string)
    requires forall i :: 0 <= i < |s| ==> !('A' <= s[i] <= 'Z')
    ensures Lower(s) == s
  {
  }

  lemma NeedsChar(s: string, needle: string, k: nat)
    requires k < |needle| && needle[k] !in s
    ensures !Includes(s, needle)
  {
    forall i: nat ensures !OccursAt(s, needle, i) {
      if i + |needle| <= |s| {
        assert s[i..i + |needle|][k] == s[i + k];
      }
    }
  }

  lemma FlaggedText()
    ensures Haystack(FlaggedRoleChange()) == FLAGGED_TEXT
  {
    LowerStays("audit.suspicious");
    LowerStays("roles");
    LowerStays("audit.suspicious roles ");
    assert "audit.suspicious" + " " + "roles" + " " + "" == "audit.suspicious roles ";
  }

  lemma LacksThree()
    ensures 'g' !in FLAGGED_TEXT && 'h' !in FLAGGED_TEXT && 'm' !in FLAGGED_TEXT
  {
  }

  lemma FirstDoesNotMatch()
    ensures !Has(FlaggedRoleChange(), ["audit.integrity", "chain.verify", "tamper"])
  {
    FlaggedText();
    LacksThree();
    assert "audit.integrity"[10] == 'g' && "chain.verify"[1] == 'h' && "tamper"[2] == 'm';
    NeedsChar(FLAGGED_TEXT, "audit.integrity", 10);
    NeedsChar(FLAGGED_TEXT, "chain.verify", 1);
    NeedsChar(FLAGGED_TEXT, "tamper", 2);
  }

  lemma SecondMatches()
    ensures Includes(Lower(FlaggedRoleChange().action), "audit.suspicious")
  {
    var s := "audit.suspicious";
    LowerStays(s);
    assert s[0..0 + |s|] == s;
    assert OccursAt(s, s, 0);
  }

  lemma ThirdMatches()
    ensures Has(FlaggedRoleChange(), ["roles", "permissions", "impersonate", "privilege"])
  {
    FlaggedText();
    var needles := ["roles", "permissions", "impersonate", "privilege"];
    assert FLAGGED_TEXT[17..17 + 5] == "roles";
    assert OccursAt(FLAGGED_TEXT, "roles", 17);
    assert needles[0] == "roles" && needles[0] in needles;
  }

  lemma FlaggedMatches(rules: seq<Rule>, largePayment: real)
    requires rules == CriticalEventRules(largePayment)
    ensures var e := FlaggedRoleChange(); !rules[0].matches(e) && rules[1].matches(e) && rules[2].matches(e)
    ensures rules[1].severity == High && rules[2].severity == Critical
  {
    FirstDoesNotMatch();
    SecondMatches();
    ThirdMatches();
  }

  lemma SecondIsFound(rules: seq<Rule>, e: AuditEvent)
    requires |rules| > 1 && !rules[0].matches(e) && rules[1].matches(e)
    ensures Classify(rules, e) == Some(rules[1])
  {
    assert rules[1..][0] == rules[1];
  }

  /**
   * A role change flagged as suspicious matches the critical rule for privileges, but the shipped list answers with the
   * high rule before it, and an alerter that is set to critical events stays silent.
   */
  lemma ShippedRulesAreOvertaken(c: Config, largePayment: real)
    requires c.rules == CriticalEventRules(largePayment) && c.minSeverity == Critical
    ensures var e, rules := FlaggedRoleChange(), c.rules;
            && |rules| == 9 && rules[2].severity == Critical && rules[2].matches(e)
            && Classify(rules, e) == Some(rules[1]) && rules[1].severity == High
            && !MostSevere(rules, e) && !Alertable(c, e)
  {
    FlaggedMatches(c.rules, largePayment);
    SecondIsFound(c.rules, FlaggedRoleChange());
  }
}
