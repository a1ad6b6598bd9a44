/** Amount tiers that say how many signers an escrow needs. */
module ThresholdPolicy {
  import opened Primitives

  datatype Tier = Tier(minAmount: U64, maxAmount: Option<U64>, requiredSigners: U32)

  datatype Policy = Policy(tiers: seq<Tier>, defaultThreshold: U32)

  predicate Covers(t: Tier, amount: U64) {
    t.minAmount <= amount && (t.maxAmount == None || amount <= t.maxAmount.value)
  }

  /** What the policy promises: sorted tiers that never reach into a later one, and at least one signer everywhere. */
  ghost predicate WellFormed(p: Policy) {
    && p.defaultThreshold >= 1
    && (forall i :: 0 <= i < |p.tiers| ==>
          && p.tiers[i].requiredSigners >= 1
          && (p.tiers[i].maxAmount.Some? ==> p.tiers[i].minAmount <= p.tiers[i].maxAmount.value))
    && (forall i, j :: 0 <= i < j < |p.tiers| ==> p.tiers[i].minAmount < p.tiers[j].minAmount)
    && (forall i, j {:trigger p.tiers[i], p.tiers[j]} :: 0 <= i < j < |p.tiers| && p.tiers[i].maxAmount.Some? ==>
          p.tiers[i].maxAmount.value < p.tiers[j].minAmount)
  }

  /** The first tier that covers `amount`; the number of tiers stands for none. */
  function FirstMatch(tiers: seq<Tier>, amount: U64): (k: nat)
    ensures k <= |tiers|
    ensures forall i :: 0 <= i < k ==> !Covers(tiers[i], amount)
    ensures k < |tiers| ==> Covers(tiers[k], amount)
  {
    if tiers == [] || Covers(tiers[0], amount) then 0 else 1 + FirstMatch(tiers[1..], amount)
  }

  lemma {:induction false} FirstMatchIs(tiers: seq<Tier>, amount: U64, k: nat)
    requires k <= |tiers| && (forall i :: 0 <= i < k ==> !Covers(tiers[i], amount))
    requires k < |tiers| ==> Covers(tiers[k], amount)
    ensures FirstMatch(tiers, amount) == k
  {
    if tiers != [] && k > 0 {
      FirstMatchIs(tiers[1..], amount, k - 1);
    }
  }

  function Required(p: Policy, k: nat): U32 {
    if k < |p.tiers| then p.tiers[k].requiredSigners else p.defaultThreshold
  }

  method GetRequiredSigners(amount: U64, policy: Policy) returns (n: U32)
    ensures n == Required(policy, FirstMatch(policy.tiers, amount))
    ensures WellFormed(policy) ==> n >= 1
  {
    var i := 0;
    while i < |policy.tiers|
      invariant 0 <= i <= |policy.tiers|
      invariant forall j :: 0 <= j < i ==> !Covers(policy.tiers[j], amount)
    {
      var tier := policy.tiers[i];
      var matches := amount >= tier.minAmount && match tier.maxAmount case Some(max) => amount <= max case None => true;
      if matches {
        FirstMatchIs(policy.tiers, amount, i);
        return tier.requiredSigners;
      }
      i := i + 1;
    }
    FirstMatchIs(policy.tiers, amount, i);
    return policy.defaultThreshold;
  }

  /** The answer is the number of signers of the first tier that covers the amount, or the default if none does. */
  lemma AnswerIsTheTiers(p: Policy, amount: U64)
    ensures forall k :: 0 <= k < |p.tiers| && Covers(p.tiers[k], amount)
                        && (forall i :: 0 <= i < k ==> !Covers(p.tiers[i], amount)) ==>
              Required(p, FirstMatch(p.tiers, amount)) == p.tiers[k].requiredSigners
    ensures (forall k :: 0 <= k < |p.tiers| ==> !Covers(p.tiers[k], amount)) ==>
              Required(p, FirstMatch(p.tiers, amount)) == p.defaultThreshold
  {
    forall k | 0 <= k < |p.tiers| && Covers(p.tiers[k], amount)
               && (forall i :: 0 <= i < k ==> !Covers(p.tiers[i], amount))
      ensures FirstMatch(p.tiers, amount) == k
    {
      FirstMatchIs(p.tiers, amount, k);
    }
  }

  /** An amount is in a tier from its minimum to its maximum, both included; without a maximum there is no upper end. */
  lemma TierBounds(t: Tier, amount: U64)
    ensures Covers(t, amount) <==> !(amount < t.minAmount) && (t.maxAmount.Some? ==> !(t.maxAmount.value < amount))
  {
  }

  /** The checker looks at neighbours only; that is enough for every pair. */
  method ValidateThresholdPolicy(policy: Policy) returns (valid: bool)
    ensures valid <==> WellFormed(policy)
  {
    if policy.defaultThreshold == 0 { return false; }
    var len := |policy.tiers|;
    if len == 0 { return true; }
    var i := 0;
    while i < len
      invariant 0 <= i <= len
      invariant WellFormed(Policy(policy.tiers[..i], policy.defaultThreshold))
    {
      var tier := policy.tiers[i];
      if tier.requiredSigners == 0 { return false; }
      if tier.maxAmount.Some? && tier.minAmount > tier.maxAmount.value { return false; }
      if i > 0 {
        var prev := policy.tiers[i - 1];
        if prev.minAmount >= tier.minAmount { return false; }
        if prev.maxAmount.Some? && prev.maxAmount.value >= tier.minAmount { return false; }
      }
      ExtendWellFormed(policy, i);
      i := i + 1;
    }
    assert policy.tiers[..len] == policy.tiers;
    return true;
  }

  /** A tier that fits its left neighbour fits every earlier one. */
  lemma ExtendWellFormed(p: Policy, i: nat)
    requires i < |p.tiers| && WellFormed(Policy(p.tiers[..i], p.defaultThreshold))
    requires p.tiers[i].requiredSigners >= 1
    requires p.tiers[i].maxAmount.Some? ==> p.tiers[i].minAmount <= p.tiers[i].maxAmount.value
    requires i > 0 ==> p.tiers[i - 1].minAmount < p.tiers[i].minAmount
    requires i > 0 && p.tiers[i - 1].maxAmount.Some? ==> p.tiers[i - 1].maxAmount.value < p.tiers[i].minAmount
    ensures WellFormed(Policy(p.tiers[..i + 1], p.defaultThreshold))
  {
    var s, t := p.tiers[..i], p.tiers[..i + 1];
    forall j | 0 <= j < i
      ensures t[j].minAmount < t[i].minAmount && (t[j].maxAmount.Some? ==> t[j].maxAmount.value < t[i].minAmount)
    {
      assert s[j] == t[j] && s[i - 1] == t[i - 1];
    }
    assert forall j :: 0 <= j < i ==> t[j] == s[j];
  }

  /** Every tier but the last has an upper bound. */
  ghost predicate OnlyLastOpen(p: Policy) {
    forall i :: 0 <= i < |p.tiers| - 1 ==> p.tiers[i].maxAmount.Some?
  }

  /** In a validated policy a bounded tier shares no amount with any later tier. */
  lemma BoundedTiersAreDisjoint(p: Policy, i: nat, j: nat, amount: U64)
    requires WellFormed(p) && i < j < |p.tiers| && p.tiers[i].maxAmount.Some?
    ensures !(Covers(p.tiers[i], amount) && Covers(p.tiers[j], amount))
  {
    assert p.tiers[i].maxAmount.value < p.tiers[j].minAmount;
  }

  ghost predicate PairwiseDisjoint(p: Policy) {
    forall i, j, amount: U64 :: 0 <= i < j < |p.tiers| ==> !(Covers(p.tiers[i], amount) && Covers(p.tiers[j], amount))
  }

  /** Validation promises that no amount falls into two tiers: it does so if and only if only the last tier is open. */
  lemma DisjointExactlyWhenOnlyLastOpen(p: Policy)
    requires WellFormed(p)
    ensures PairwiseDisjoint(p) <==> OnlyLastOpen(p)
  {
    if OnlyLastOpen(p) {
      forall i, j, amount: U64 | 0 <= i < j < |p.tiers|
        ensures !(Covers(p.tiers[i], amount) && Covers(p.tiers[j], amount))
      {
        BoundedTiersAreDisjoint(p, i, j, amount);
      }
    } else {
      var i :| 0 <= i < |p.tiers| - 1 && p.tiers[i].maxAmount.None?;
      var amount := p.tiers[i + 1].minAmount;
      assert Covers(p.tiers[i], amount) && Covers(p.tiers[i + 1], amount);
    }
  }

  /** How many tiers start at or below `amount`, when they are sorted. */
  function Started(tiers: seq<Tier>, amount: U64): (c: nat)
    ensures c <= |tiers|
    ensures c > 0 ==> tiers[c - 1].minAmount <= amount
    ensures forall i :: c <= i < |tiers| ==> tiers[i].minAmount > amount
  {
    if tiers == [] || tiers[|tiers| - 1].minAmount <= amount then |tiers| else Started(tiers[..|tiers| - 1], amount)
  }

  /** The tier with the greatest minimum not above `amount`, or none when `amount` is past its maximum. */
  function GreatestMin(tiers: seq<Tier>, amount: U64): nat {
    var c := Started(tiers, amount);
    if c > 0 && Covers(tiers[c - 1], amount) then c - 1 else |tiers|
  }

  lemma ScanIsLookup(p: Policy, amount: U64)
    requires WellFormed(p) && OnlyLastOpen(p)
    ensures FirstMatch(p.tiers, amount) == GreatestMin(p.tiers, amount)
  {
    var c: int := Started(p.tiers, amount);
    forall i: nat | i < |p.tiers| && i + 1 != c ensures !Covers(p.tiers[i], amount) {
      if i + 1 < c {
        assert p.tiers[i].maxAmount.value < p.tiers[c - 1].minAmount;
      }
    }
    FirstMatchIs(p.tiers, amount, GreatestMin(p.tiers, amount));
  }

  /**
   * The first-match scan is the greatest-minimum lookup for every amount if and only if only the last tier is open:
   * an open tier further left is accepted by the validator and shadows every tier after it.
   */
  lemma ScanIsLookupExactlyWhen(p: Policy)
    requires WellFormed(p)
    ensures OnlyLastOpen(p) <==> forall amount: U64 :: FirstMatch(p.tiers, amount) == GreatestMin(p.tiers, amount)
  {
    if OnlyLastOpen(p) {
      forall amount: U64 ensures FirstMatch(p.tiers, amount) == GreatestMin(p.tiers, amount) {
        ScanIsLookup(p, amount);
      }
    } else {
      var i :| 0 <= i < |p.tiers| - 1 && p.tiers[i].maxAmount.None?;
      var amount := p.tiers[i + 1].minAmount;
      assert Covers(p.tiers[i], amount);
      assert Started(p.tiers, amount) >= i + 2;
      assert FirstMatch(p.tiers, amount) != GreatestMin(p.tiers, amount);
    }
  }
}
