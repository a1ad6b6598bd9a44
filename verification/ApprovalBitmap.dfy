/** The packed vote record: two 128-bit masks that stand for the approval and rejection lists of a proposal. */
module ApprovalBitmaps {
  import opened Primitives
  import MultisigSafety

  predicate Bit(m: bv128, i: nat) {
    i < 128 && (m >> (i as bv8)) & 1 == 1
  }

  function WithBit(m: bv128, i: nat): bv128 {
    if i < 128 then m | (1 << (i as bv8)) else m
  }

  /** Set bits among the lowest `n`. */
  function Ones(m: bv128, n: nat): nat {
    if n == 0 then 0 else Ones(m, n - 1) + if Bit(m, n - 1) then 1 else 0
  }

  /** `count_ones` of a `u128`. */
  function CountOnes(m: bv128): nat {
    Ones(m, 128)
  }

  class ApprovalBitmap {
    var approvals: bv128
    var rejections: bv128

    constructor ()
      ensures approvals == 0 && rejections == 0
    {
      approvals, rejections := 0, 0;
    }

    predicate HasApproved(signerIndex: U32)
      reads this
    {
      Bit(approvals, signerIndex)
    }

    predicate HasRejected(signerIndex: U32)
      reads this
    {
      Bit(rejections, signerIndex)
    }

    method Approve(signerIndex: U32)
      modifies this`approvals
      ensures approvals == WithBit(old(approvals), signerIndex)
      ensures forall i: U32 :: HasApproved(i) <==> old(HasApproved(i)) || (i == signerIndex && i < 128)
    {
      if signerIndex < 128 {
        approvals := approvals | (1 << (signerIndex as bv8));
      }
      forall i: U32 ensures HasApproved(i) <==> old(HasApproved(i)) || (i == signerIndex && i < 128) {
        WithBitSets(old(approvals), signerIndex, i);
      }
    }

    method Reject(signerIndex: U32)
      modifies this`rejections
      ensures rejections == WithBit(old(rejections), signerIndex)
      ensures forall i: U32 :: HasRejected(i) <==> old(HasRejected(i)) || (i == signerIndex && i < 128)
    {
      if signerIndex < 128 {
        rejections := rejections | (1 << (signerIndex as bv8));
      }
      forall i: U32 ensures HasRejected(i) <==> old(HasRejected(i)) || (i == signerIndex && i < 128) {
        WithBitSets(old(rejections), signerIndex, i);
      }
    }
  }

  lemma OrShift(m: bv128, i: bv8, j: bv8)
    requires i < 128 && j < 128
    ensures ((m | (1 << i)) >> j) & 1 == if i == j then 1 else (m >> j) & 1
  {
  }

  lemma CastKeepsOrder(i: nat, j: nat)
    requires i < 128 && j < 128
    ensures (i as bv8) < 128 && (i as bv8 == j as bv8 <==> i == j)
  {
    CastBack(i);
    CastBack(j);
  }

  lemma CastBack(i: nat)
    requires i < 128
    ensures (i as bv8) as int == i && (i as bv8) < 128
  {
  }

  /** Setting a bit sets that bit and no other. */
  lemma WithBitSets(m: bv128, i: nat, j: nat)
    ensures Bit(WithBit(m, i), j) <==> Bit(m, j) || (i == j && i < 128)
  {
    if i < 128 && j < 128 {
      CastKeepsOrder(i, j);
      CastKeepsOrder(j, i);
      OrShift(m, i as bv8, j as bv8);
    }
  }

  // ----- The mask and the list -----

  /** Mask `m` over `signers` says the same as the list of voters. */
  ghost predicate Agrees(m: bv128, signers: seq<Address>, voters: seq<Address>) {
    && (forall i: nat :: i < |signers| ==> (Bit(m, i) <==> signers[i] in voters))
    && (forall i: nat :: |signers| <= i < 128 ==> !Bit(m, i))
    && Distinct(voters) && forall x :: x in voters ==> x in signers
  }

  /** Agreeing records count the same, so every threshold and blocking test gives the same answer on either. */
  lemma AgreeingCounts(m: bv128, signers: seq<Address>, voters: seq<Address>)
    requires Agrees(m, signers, voters) && Distinct(signers)
    requires |signers| <= 128
    ensures CountOnes(m) == |voters|
  {
    OnesCountVoters(m, signers, voters, |signers|);
    OnesAbove(m, |signers|, 128);
    var both := VotersAmong(signers[..|signers|], voters);
    assert both == MultisigSafety.Members(voters);
    MultisigSafety.MembersCount(voters);
  }

  lemma {:induction false} OnesAbove(m: bv128, n: nat, k: nat)
    requires n <= k <= 128 && forall i: nat :: n <= i < k ==> !Bit(m, i)
    ensures Ones(m, k) == Ones(m, n)
  {
    if n < k {
      OnesAbove(m, n, k - 1);
    }
  }

  lemma {:induction false} OnesCountVoters(m: bv128, signers: seq<Address>, voters: seq<Address>, n: nat)
    requires n <= |signers| && Distinct(signers)
    requires forall i: nat :: i < n ==> (Bit(m, i) <==> signers[i] in voters)
    ensures Ones(m, n) == |VotersAmong(signers[..n], voters)|
    decreases n
  {
    if n > 0 {
      OnesCountVoters(m, signers, voters, n - 1);
      assert signers[..n] == signers[..n - 1] + [signers[n - 1]];
      OneMoreSigner(signers[..n - 1], signers[n - 1], voters);
    }
  }

  function VotersAmong(signers: seq<Address>, voters: seq<Address>): set<Address> {
    set x | x in signers && x in voters
  }

  lemma OneMoreSigner(signers: seq<Address>, who: Address, voters: seq<Address>)
    requires who !in signers
    ensures |VotersAmong(signers + [who], voters)| == |VotersAmong(signers, voters)| + (if who in voters then 1 else 0)
  {
    var low, all := VotersAmong(signers, voters), VotersAmong(signers + [who], voters);
    if who in voters {
      assert all == low + {who};
    } else {
      assert all == low;
    }
  }

  // ----- Any sequence of votes -----

  /** One signer's vote, by position in the wallet's list. */
  datatype Vote = Vote(index: nat, approve: bool)

  /** A proposal's votes kept both ways. */
  datatype Ballot = Ballot(
    approvals: seq<Address>, rejections: seq<Address>, approvalBits: bv128, rejectionBits: bv128)

  /** The list form: a repeated vote is dropped, a new one is pushed at the end. */
  function Push(voters: seq<Address>, who: Address): seq<Address> {
    if who in voters then voters else voters + [who]
  }

  function Count(b: Ballot, signers: seq<Address>, v: Vote): Ballot
    requires v.index < |signers|
  {
    if v.approve then
      b.(approvals := Push(b.approvals, signers[v.index]), approvalBits := WithBit(b.approvalBits, v.index))
    else
      b.(rejections := Push(b.rejections, signers[v.index]), rejectionBits := WithBit(b.rejectionBits, v.index))
  }

  function CountAll(signers: seq<Address>, votes: seq<Vote>): Ballot
    requires forall v :: v in votes ==> v.index < |signers|
  {
    if votes == [] then Ballot([], [], 0, 0)
    else Count(CountAll(signers, votes[..|votes| - 1]), signers, votes[|votes| - 1])
  }

  /** A new vote keeps list and mask in step exactly when its signer has one of the 128 positions. */
  lemma PushAgrees(m: bv128, signers: seq<Address>, voters: seq<Address>, i: nat)
    requires Agrees(m, signers, voters) && Distinct(signers) && i < |signers|
    ensures Agrees(WithBit(m, i), signers, Push(voters, signers[i])) <==> i < 128
  {
    forall j: nat ensures Bit(WithBit(m, i), j) <==> Bit(m, j) || (i == j && i < 128) {
      WithBitSets(m, i, j);
    }
    assert signers[i] in Push(voters, signers[i]);
    if i < 128 {
      forall j: nat | j < |signers| ensures Bit(WithBit(m, i), j) <==> signers[j] in Push(voters, signers[i]) {
        assert signers[j] == signers[i] <==> i == j;
      }
    } else {
      assert !Bit(WithBit(m, i), i);
    }
  }

  /** For at most 128 distinct signers, any votes in any order leave masks that read and count like the lists. */
  lemma {:induction false} BitmapAgrees(signers: seq<Address>, votes: seq<Vote>)
    requires Distinct(signers) && |signers| <= 128
    requires forall v :: v in votes ==> v.index < |signers|
    ensures var b := CountAll(signers, votes);
            && Agrees(b.approvalBits, signers, b.approvals) && CountOnes(b.approvalBits) == |b.approvals|
            && Agrees(b.rejectionBits, signers, b.rejections) && CountOnes(b.rejectionBits) == |b.rejections|
  {
    var b := CountAll(signers, votes);
    if votes == [] {
      forall i: nat ensures !Bit(0, i) { }
    } else {
      var before, v := votes[..|votes| - 1], votes[|votes| - 1];
      BitmapAgrees(signers, before);
      var a := CountAll(signers, before);
      assert v in votes;
      PushAgrees(if v.approve then a.approvalBits else a.rejectionBits, signers,
                 if v.approve then a.approvals else a.rejections, v.index);
    }
    AgreeingCounts(b.approvalBits, signers, b.approvals);
    AgreeingCounts(b.rejectionBits, signers, b.rejections);
  }
}
