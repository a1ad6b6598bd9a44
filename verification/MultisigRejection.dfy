/** Whether a rejection finalises exactly the proposals that can no longer be executed. */
module MultisigRejection {
  import opened Primitives
  import opened MultisigLedger
  import opened MultisigSafety

  // ----- What can still be reached -----

  /** The recorded approvers and the signers who have not rejected. */
  function Supporters(w: Wallet, p: Proposal): set<Address> {
    Members(p.approvals) + (Members(w.signers) - Members(p.rejections))
  }

  /** The threshold can still be met without anyone who rejected approving after all. */
  predicate Reachable(w: Wallet, p: Proposal) {
    |Supporters(w, p)| >= Quorum(w)
  }

  /** Approvals at time `now`, one after the other. */
  function ApproveEach(l: Ledger, now: U64, id: U64, voters: seq<Address>): Ledger
    decreases |voters|
  {
    if voters == [] then l else ApproveEach(Next(l, Step(now, Approve(voters[0], id))), now, id, voters[1..])
  }

  /** Signers who have not rejected, approving in this order, execute the proposal. */
  ghost predicate Wins(l: Ledger, now: U64, id: U64, voters: seq<Address>) {
    && Votable(l, id)
    && (forall v :: v in voters ==>
          v in l.wallets[l.proposals[id].walletId].signers && v !in l.proposals[id].rejections)
    && IsExecuted(ApproveEach(l, now, id, voters), id)
  }

  /** Approvals are being accepted: the contract is open and the pending proposal has not expired. */
  ghost predicate Accepting(l: Ledger, now: U64, id: U64) {
    Open(l) && Votable(l, id) && (l.proposals[id].expiresAt == 0 || now < l.proposals[id].expiresAt)
  }

  /** What an approval by a signer does while approvals are accepted. */
  ghost predicate Approves(l: Ledger, l': Ledger, id: U64, who: Address) {
    && id in l.proposals && id in l'.proposals && l.proposals[id].walletId in l.wallets
    && var p, q, w := l.proposals[id], l'.proposals[id], l.wallets[l.proposals[id].walletId];
    && l'.wallets == l.wallets && l'.paused == l.paused && l'.locked == l.locked
    && (if who in p.approvals then l' == l
        else q == p.(approvals := p.approvals + [who], status := q.status)
             && q.status == if |p.approvals| + 1 >= w.threshold then Executed else Pending)
  }

  lemma ApproveShape(l: Ledger, now: U64, id: U64, who: Address)
    requires Inv(l) && Accepting(l, now, id) && who in l.wallets[l.proposals[id].walletId].signers
    ensures Approves(l, Next(l, Step(now, Approve(who, id))), id, who)
    ensures Inv(Next(l, Step(now, Approve(who, id))))
  {
    StepKeepsInv(l, Step(now, Approve(who, id)));
  }

  lemma WinLater(l: Ledger, now: U64, id: U64, who: Address, rest: seq<Address>)
    requires Inv(l) && Accepting(l, now, id)
    requires who in l.wallets[l.proposals[id].walletId].signers && who !in l.proposals[id].rejections
    requires var l' := Next(l, Step(now, Approve(who, id)));
             (IsExecuted(l', id) && rest == []) || Wins(l', now, id, rest)
    ensures Wins(l, now, id, [who] + rest)
  {
    ApproveShape(l, now, id, who);
    assert ([who] + rest)[1..] == rest;
  }

  /** Enough signers who have not been heard win, in any order. */
  lemma {:induction false} EnoughWin(l: Ledger, now: U64, id: U64, unheard: set<Address>) returns (voters: seq<Address>)
    requires Inv(l) && Accepting(l, now, id) && unheard != {}
    requires unheard <= Members(l.wallets[l.proposals[id].walletId].signers)
    requires unheard !! Members(l.proposals[id].approvals) && unheard !! Members(l.proposals[id].rejections)
    requires |l.proposals[id].approvals| + |unheard| >= Quorum(l.wallets[l.proposals[id].walletId])
    ensures Wins(l, now, id, voters)
    decreases |unheard|
  {
    var who :| who in unheard;
    var l' := Next(l, Step(now, Approve(who, id)));
    var rest: seq<Address> := [];
    ApproveShape(l, now, id, who);
    if l'.proposals[id].status != Executed {
      assert Members(l'.proposals[id].approvals) == Members(l.proposals[id].approvals) + {who};
      rest := EnoughWin(l', now, id, unheard - {who});
    }
    WinLater(l, now, id, who, rest);
    voters := [who] + rest;
  }

  /** A win needs quorum many supporters. */
  lemma {:induction false} WinNeedsQuorum(l: Ledger, now: U64, id: U64, voters: seq<Address>)
    requires Inv(l) && Wins(l, now, id, voters)
    ensures Reachable(l.wallets[l.proposals[id].walletId], l.proposals[id])
    decreases |voters|
  {
    var p, w := l.proposals[id], l.wallets[l.proposals[id].walletId];
    var who := voters[0];
    var l' := Next(l, Step(now, Approve(who, id)));
    if !Accepting(l, now, id) {
      assert l' == l;
      WinNeedsQuorum(l, now, id, voters[1..]);
    } else {
      ApproveShape(l, now, id, who);
      if l' == l {
        WinNeedsQuorum(l, now, id, voters[1..]);
      } else if l'.proposals[id].status == Executed {
        AllSupport(w, p, who);
        assert ProposalInv(l', l'.proposals[id]);
        MembersCount(l'.proposals[id].approvals);
        assert Members(l'.proposals[id].approvals) <= Supporters(w, p);
        SubsetCount(Members(l'.proposals[id].approvals), Supporters(w, p));
      } else {
        WinNeedsQuorum(l', now, id, voters[1..]);
        AllSupport(w, p, who);
        assert Supporters(w, l'.proposals[id]) == Supporters(w, p);
      }
    }
  }

  lemma AllSupport(w: Wallet, p: Proposal, who: Address)
    requires who in w.signers && who !in p.rejections
    ensures Members(p.approvals + [who]) == Members(p.approvals) + {who}
    ensures who in Supporters(w, p)
  {
  }

  lemma SubsetCount(a: set<Address>, b: set<Address>)
    requires a <= b
    ensures |a| <= |b|
  {
    assert b == a + (b - a);
  }

  /** `Reachable` is what it says: it holds exactly when some signers who have not rejected can execute the proposal. */
  lemma ReachableMeans(l: Ledger, now: U64, id: U64)
    requires Inv(l) && Accepting(l, now, id)
    ensures Reachable(l.wallets[l.proposals[id].walletId], l.proposals[id])
            <==> exists voters :: Wins(l, now, id, voters)
  {
    var p, w := l.proposals[id], l.wallets[l.proposals[id].walletId];
    if Reachable(w, p) {
      assert ProposalInv(l, p);
      MembersCount(p.approvals);
      var unheard := Supporters(w, p) - Members(p.approvals);
      assert Supporters(w, p) == Members(p.approvals) + unheard;
      var voters := EnoughWin(l, now, id, unheard);
    }
    if voters :| Wins(l, now, id, voters) {
      WinNeedsQuorum(l, now, id, voters);
    }
  }

  // ----- One rejection -----

  /** Recorded approvals by accounts that have rejected as well or no longer sign. */
  function Spent(w: Wallet, p: Proposal): nat {
    |Members(p.approvals) - (Members(w.signers) - Members(p.rejections))|
  }

  lemma SupportersCount(w: Wallet, p: Proposal)
    ensures |Supporters(w, p)| == Remaining(w, p) + Spent(w, p)
  {
    var left := Members(w.signers) - Members(p.rejections);
    assert Supporters(w, p) == left + (Members(p.approvals) - left);
  }

  /** A new rejection by a signer: one account less remains, and an approval it had given is spent. */
  lemma OneMoreRejection(w: Wallet, p: Proposal, q: Proposal, who: Address)
    requires who in w.signers && who !in p.rejections
    requires q.rejections == p.rejections + [who] && q.approvals == p.approvals
    ensures Remaining(w, q) == Remaining(w, p) - 1 && Stale(w, q) == Stale(w, p)
    ensures Spent(w, q) == Spent(w, p) + if who in p.approvals then 1 else 0
  {
    var signers, rej, app := Members(w.signers), Members(p.rejections), Members(p.approvals);
    assert Members(q.rejections) == rej + {who};
    assert signers - (rej + {who}) == (signers - rej) - {who};
    assert (rej + {who}) - signers == rej - signers;
    var before := app - (signers - rej);
    assert app - (signers - (rej + {who})) == if who in p.approvals then before + {who} else before;
    assert who !in before;
  }

  /** The votes still to come plus those recorded reach the quorum, yet the rejection count blocks. */
  predicate Premature(w: Wallet, p: Proposal, who: Address) {
    && Remaining(w, p) + Repeats(w) <= w.threshold + Stale(w, p)
    && Remaining(w, p) + Spent(w, p) + (if who in p.approvals then 1 else 0) > Quorum(w)
  }

  /** The quorum is out of reach, yet the rejection count does not block. */
  predicate Overdue(w: Wallet, p: Proposal, who: Address) {
    && Remaining(w, p) + Repeats(w) > w.threshold + Stale(w, p)
    && Remaining(w, p) + Spent(w, p) + (if who in p.approvals then 1 else 0) <= Quorum(w)
  }

  /**
   * A new rejection is promised to finalise exactly the proposals whose threshold it puts out of reach. The two ways to
   * miss that are told by the records before the call, for every wallet and every record of votes.
   */
  lemma FinalisesExactly(l: Ledger, s: Step)
    requires Inv(l) && s.call.Reject? && Next(l, s) != l
    ensures var id := s.call.proposalId;
            && id in l.proposals && id in Next(l, s).proposals && l.proposals[id].walletId in l.wallets
            && var p, q, w := l.proposals[id], Next(l, s).proposals[id], l.wallets[l.proposals[id].walletId];
            && (q.status == Rejected <==> Remaining(w, p) + Repeats(w) <= w.threshold + Stale(w, p))
            && (q.status == Rejected && Reachable(w, q) <==> Premature(w, p, s.call.caller))
            && (q.status != Rejected && !Reachable(w, q) <==> Overdue(w, p, s.call.caller))
  {
    RejectShape(l, s);
    RejectionLaw(l, s);
    var id := s.call.proposalId;
    var p, q, w := l.proposals[id], Next(l, s).proposals[id], l.wallets[l.proposals[id].walletId];
    OneMoreRejection(w, p, q, s.call.caller);
    SupportersCount(w, q);
  }

  // ----- Wallets whose signers are distinct and never edited -----

  lemma RejectedBy(l: Ledger, s: Step, id: U64)
    requires Inv(l) && id in Next(l, s).proposals && Next(l, s).proposals[id].status == Rejected
    requires id in l.proposals ==> l.proposals[id].status != Rejected
    ensures s.call.Reject? && s.call.proposalId == id && Next(l, s) != l && id in l.proposals
    ensures Next(l, s).proposals[id].approvals == l.proposals[id].approvals
  {
    if IsVote(s.call) {
      VoteShape(l, s);
    }
  }

  lemma RejectedNow(l: Ledger, l': Ledger, w: U64, id: U64, who: Address)
    requires Rejects(l, l', id, who) && ExactlyBlocked(l, w) && ExactlyBlocked(l', w)
    requires l.proposals[id].walletId == w && l'.proposals[id].status == Rejected
    ensures Remaining(l'.wallets[w], l'.proposals[id]) == l'.wallets[w].threshold - 1
  {
    OneMoreRejection(l.wallets[w], l.proposals[id], l'.proposals[id], who);
  }

  lemma RejectedStep(l: Ledger, s: Step, w: U64, id: U64)
    requires Inv(l) && Untouched([s], w) && ExactlyBlocked(l, w) && ExactlyBlocked(Next(l, s), w)
    requires id in Next(l, s).proposals && Next(l, s).proposals[id].status == Rejected
    requires Next(l, s).proposals[id].walletId == w && w in Next(l, s).wallets
    requires id in l.proposals ==> l.proposals[id].status != Rejected
    ensures Remaining(Next(l, s).wallets[w], Next(l, s).proposals[id]) == Next(l, s).wallets[w].threshold - 1
  {
    RejectedBy(l, s, id);
    RejectShape(l, s);
    RejectedNow(l, Next(l, s), w, id, s.call.caller);
  }

  lemma RejectedStays(l: Ledger, s: Step, w: U64, id: U64)
    requires Inv(l) && Untouched([s], w)
    requires id in l.proposals && l.proposals[id].status == Rejected && l.proposals[id].walletId == w
    ensures w in l.wallets && w in Next(l, s).wallets && Next(l, s).wallets[w] == l.wallets[w]
    ensures id in Next(l, s).proposals && Next(l, s).proposals[id] == l.proposals[id]
  {
    assert ProposalInv(l, l.proposals[id]);
    StepKeepsInv(l, s);
    WalletKept(l, s, w);
  }

  lemma SplitSteps(steps: seq<Step>, w: U64)
    requires steps != [] && Untouched(steps, w)
    ensures Untouched(steps[..|steps| - 1], w) && Untouched([steps[|steps| - 1]], w)
  {
    assert steps[|steps| - 1] in steps;
  }

  /** `ExactlyBlocked` also before wallet `w` exists. */
  lemma BlockedSoFar(admin: Address, steps: seq<Step>, w: U64)
    requires Untouched(steps, w)
    requires w in Run(Init(admin), steps).wallets ==> Distinct(Run(Init(admin), steps).wallets[w].signers)
    ensures ExactlyBlocked(Run(Init(admin), steps), w)
  {
    if w in Run(Init(admin), steps).wallets {
      RejectedExactly(admin, steps, w);
    }
  }

  /** Rejection comes with the very vote that leaves one signer too few. */
  lemma {:induction false} RejectedAtOnce(admin: Address, steps: seq<Step>, w: U64, id: U64)
    requires Untouched(steps, w)
    requires w in Run(Init(admin), steps).wallets && Distinct(Run(Init(admin), steps).wallets[w].signers)
    requires id in Run(Init(admin), steps).proposals
    requires var p := Run(Init(admin), steps).proposals[id]; p.walletId == w && p.status == Rejected
    ensures var l := Run(Init(admin), steps); Remaining(l.wallets[w], l.proposals[id]) == l.wallets[w].threshold - 1
  {
    if steps == [] {
      assert false;
    } else {
      var before, last := steps[..|steps| - 1], steps[|steps| - 1];
      var l := Run(Init(admin), before);
      RunKeepsInv(admin, before);
      SplitSteps(steps, w);
      if id in l.proposals && l.proposals[id].status == Rejected {
        SameWallet(l, last, id);
        RejectedStays(l, last, w, id);
        RejectedAtOnce(admin, before, w, id);
      } else {
        DistinctBefore(l, last, w);
        BlockedSoFar(admin, before, w);
        RejectedExactly(admin, steps, w);
        RejectedStep(l, last, w, id);
      }
    }
  }

  lemma SameWallet(l: Ledger, s: Step, id: U64)
    requires Inv(l) && id in l.proposals
    ensures id in Next(l, s).proposals && Next(l, s).proposals[id].walletId == l.proposals[id].walletId
  {
    StepKeepsInv(l, s);
  }

  lemma DistinctBefore(l: Ledger, s: Step, w: U64)
    requires Inv(l) && Untouched([s], w) && w in Next(l, s).wallets && Distinct(Next(l, s).wallets[w].signers)
    ensures w in l.wallets ==> Distinct(l.wallets[w].signers)
  {
    if w in l.wallets {
      WalletKept(l, s, w);
    }
  }

  lemma {:induction false} WalletStays(admin: Address, steps: seq<Step>, n: nat, w: U64)
    requires Untouched(steps, w) && n <= |steps| && w in Run(Init(admin), steps[..n]).wallets
    ensures w in Run(Init(admin), steps).wallets
    ensures Run(Init(admin), steps).wallets[w] == Run(Init(admin), steps[..n]).wallets[w]
  {
    if n == |steps| {
      assert steps[..n] == steps;
    } else {
      var before, last := steps[..|steps| - 1], steps[|steps| - 1];
      assert before[..n] == steps[..n];
      assert Untouched(before, w) && Untouched([last], w) by { assert last in steps; }
      WalletStays(admin, before, n, w);
      RunKeepsInv(admin, before);
      WalletKept(Run(Init(admin), before), last, w);
    }
  }

  lemma ApproversSign(admin: Address, steps: seq<Step>, w: U64, id: U64)
    requires Untouched(steps, w) && w in Run(Init(admin), steps).wallets
    requires id in Run(Init(admin), steps).proposals && Run(Init(admin), steps).proposals[id].walletId == w
    ensures var l := Run(Init(admin), steps); Members(l.proposals[id].approvals) <= Members(l.wallets[w].signers)
  {
    var l := Run(Init(admin), steps);
    forall who | who in l.proposals[id].approvals ensures who in l.wallets[w].signers {
      var j := ApprovalWasCast(admin, steps, id, who);
      RunKeepsInv(admin, steps[..j]);
      assert steps[..j + 1][..j] == steps[..j];
      DecidedForever(admin, steps, j + 1, id);
      WalletStays(admin, steps, j, w);
    }
  }

  /** No account both approved and rejected. */
  predicate NobodyWavered(p: Proposal) {
    Members(p.approvals) * Members(p.rejections) == {}
  }

  lemma RejectedReach(w: Wallet, p: Proposal)
    requires WalletInv(w) && Members(p.approvals) <= Members(w.signers) && Distinct(p.approvals)
    requires Remaining(w, p) == w.threshold - 1 && 1 <= |p.approvals| < Quorum(w)
    ensures !Reachable(w, p) <==> w.threshold == 1 || NobodyWavered(p)
  {
    var app, rej, signers := Members(p.approvals), Members(p.rejections), Members(w.signers);
    SupportersCount(w, p);
    assert app - (signers - rej) == app * rej;
    if w.threshold == 1 {
      MembersCount(p.approvals);
      SubsetCount(app * rej, app);
    } else if !NobodyWavered(p) {
      var x :| x in app * rej;
      SubsetCount({x}, app * rej);
    } else {
      assert app * rej == {};
    }
  }

  lemma PendingReach(w: Wallet, p: Proposal)
    requires WalletInv(w) && Remaining(w, p) >= w.threshold
    requires Distinct(p.approvals) && 1 <= |p.approvals| < Quorum(w)
    ensures Reachable(w, p)
            <==> w.threshold > 1 || exists x :: x in w.signers && x !in p.rejections && x !in p.approvals
  {
    var app, left := Members(p.approvals), Members(w.signers) - Members(p.rejections);
    SupportersCount(w, p);
    if w.threshold == 1 {
      MembersCount(p.approvals);
      if x :| x in w.signers && x !in p.rejections && x !in p.approvals {
        assert app + {x} <= Supporters(w, p) && x !in app;
        SubsetCount(app + {x}, Supporters(w, p));
      } else {
        assert Supporters(w, p) == app;
      }
    }
  }

  /**
   * With distinct signers and an unedited list, in every run: a Rejected proposal is out of reach exactly when nobody
   * both approved and rejected it (threshold 1 aside, where it always is), and a Pending one is within reach unless the
   * threshold is 1 and every signer left has approved already.
   */
  lemma UneditedWallets(admin: Address, steps: seq<Step>, w: U64, id: U64)
    requires Untouched(steps, w)
    requires w in Run(Init(admin), steps).wallets && Distinct(Run(Init(admin), steps).wallets[w].signers)
    requires id in Run(Init(admin), steps).proposals && Run(Init(admin), steps).proposals[id].walletId == w
    ensures var l := Run(Init(admin), steps);
            var wallet, p := l.wallets[w], l.proposals[id];
            && (p.status == Rejected ==> (!Reachable(wallet, p) <==> wallet.threshold == 1 || NobodyWavered(p)))
            && (p.status == Pending ==>
                  (Reachable(wallet, p) <==>
                   wallet.threshold > 1 || exists x :: x in wallet.signers && x !in p.rejections && x !in p.approvals))
  {
    var l := Run(Init(admin), steps);
    RunKeepsInv(admin, steps);
    assert ProposalInv(l, l.proposals[id]);
    if l.proposals[id].status == Rejected {
      ApproversSign(admin, steps, w, id);
      RejectedAtOnce(admin, steps, w, id);
      RejectedReach(l.wallets[w], l.proposals[id]);
    } else if l.proposals[id].status == Pending {
      RejectedExactly(admin, steps, w);
      PendingReach(l.wallets[w], l.proposals[id]);
    }
  }

  // ----- Runs that miss the promise -----

  /** Storage holding one wallet and one proposal, both under id 1. */
  ghost predicate Holds(l: Ledger, w: Wallet, p: Proposal) {
    Open(l) && l.wallets == map[1 := w] && l.proposals == map[1 := p]
  }

  function WalletOf(signers: seq<Address>): Wallet {
    Wallet(1, signers, 2, 0, true)
  }

  function ProposalWith(rejections: seq<Address>): Proposal {
    Proposal(1, 1, 5, "r", "", Pending, ["a"], rejections, 0, 0)
  }

  /** `a` creates a wallet of threshold 2 and proposes a payment from it. */
  function Opening(signers: seq<Address>): seq<Step> {
    [Step(0, CreateWallet("a", signers, 2, 0)), Step(0, CreateProposal("a", 1, 5, "r", ""))]
  }

  lemma AfterOpening(signers: seq<Address>)
    requires 2 <= |signers| && "a" in signers
    ensures Holds(Run(Init("z"), Opening(signers)), WalletOf(signers), ProposalWith([]))
  {
    var steps := Opening(signers);
    var l1 := Next(Init("z"), steps[0]);
    assert steps[..1][..0] == [];
    assert Run(Init("z"), steps[..1]) == l1;
    assert l1.wallets == map[1 := WalletOf(signers)] && l1.proposals == map[] && l1.proposalCount == 0 && Open(l1);
  }

  lemma RunAppend(l: Ledger, steps: seq<Step>, s: Step)
    ensures Run(l, steps + [s]) == Next(Run(l, steps), s)
  {
    assert (steps + [s])[..|steps|] == steps;
  }

  lemma RejectHeld(l: Ledger, w: Wallet, p: Proposal, who: Address)
    requires Holds(l, w, p) && p.walletId == 1 && p.status == Pending && w.threshold <= |w.signers|
    requires who in w.signers && who !in p.rejections
    ensures Holds(Next(l, Step(0, Reject(who, 1))), w,
                  p.(rejections := p.rejections + [who],
                     status := if |p.rejections| + 1 >= |w.signers| - w.threshold + 1 then Rejected else Pending))
  {
  }

  /** What a failing run shows: before the last step, which rejected the proposal, `who` could have executed it. */
  ghost predicate CutShort(l: Ledger, l': Ledger, who: Address) {
    && Inv(l') && 1 in l'.proposals && 1 in l'.wallets
    && l'.proposals[1].status == Rejected && l'.proposals[1].walletId == 1
    && IsExecuted(Next(l, Step(0, Approve(who, 1))), 1)
    && who in l'.wallets[1].signers && who !in l'.proposals[1].rejections
    && Reachable(l'.wallets[1], l'.proposals[1])
  }

  /** Four signers: `c` rejects and is removed, then `b` rejects, while `d` could have executed. */
  function StaleRun(): seq<Step> {
    Opening(["a", "b", "c", "d"]) + [Step(0, Reject("c", 1))] + [Step(0, RemoveSigner("a", 1, "c"))]
  }

  lemma RemoveHeld(l: Ledger)
    requires Holds(l, WalletOf(["a", "b", "c", "d"]), ProposalWith(["c"]))
    ensures Holds(Next(l, Step(0, RemoveSigner("a", 1, "c"))), WalletOf(["a", "b", "d"]), ProposalWith(["c"]))
  {
    var s := ["a", "b", "c", "d"];
    assert s[..3] == ["a", "b", "c"];
    assert s[0] == "a" && s[2] == "c" && LastIndex(s[..3], "c") == Some(2) && LastIndex(s, "c") == Some(2);
    assert s[..2] + s[3..] == ["a", "b", "d"];
  }

  lemma ApproveHeld(l: Ledger, w: Wallet, p: Proposal, who: Address)
    requires Holds(l, w, p) && p.walletId == 1 && p.status == Pending && p.expiresAt == 0
    requires who in w.signers && who !in p.approvals && |p.approvals| + 1 >= w.threshold
    ensures IsExecuted(Next(l, Step(0, Approve(who, 1))), 1)
  {
  }

  /** A rejection by an account that was removed from the wallet still counts against the threshold. */
  lemma StaleRejectionBlocks()
    ensures var l := Run(Init("z"), StaleRun()); CutShort(l, Next(l, Step(0, Reject("b", 1))), "d")
  {
    var signers, steps := ["a", "b", "c", "d"], Opening(["a", "b", "c", "d"]);
    assert signers[0] == "a" && signers[2] == "c";
    AfterOpening(signers);
    RejectHeld(Run(Init("z"), steps), WalletOf(signers), ProposalWith([]), "c");
    assert [] + ["c"] == ["c"];
    RunAppend(Init("z"), steps, Step(0, Reject("c", 1)));
    RunAppend(Init("z"), steps + [Step(0, Reject("c", 1))], Step(0, RemoveSigner("a", 1, "c")));
    RemoveHeld(Run(Init("z"), steps + [Step(0, Reject("c", 1))]));
    CutShortHere(StaleRun(), ["a", "b", "d"], ["c"], "b", "d");
  }

  lemma CutShortHere(steps: seq<Step>, signers: seq<Address>, rejections: seq<Address>, last: Address, who: Address)
    requires Holds(Run(Init("z"), steps), WalletOf(signers), ProposalWith(rejections))
    requires last in signers && who in signers && last !in rejections && who !in rejections && who != last && who != "a"
    requires |signers| == |rejections| + 2
    ensures CutShort(Run(Init("z"), steps), Next(Run(Init("z"), steps), Step(0, Reject(last, 1))), who)
  {
    var l, w, p := Run(Init("z"), steps), WalletOf(signers), ProposalWith(rejections);
    RunKeepsInv("z", steps);
    StepKeepsInv(l, Step(0, Reject(last, 1)));
    RejectHeld(l, w, p, last);
    ApproveHeld(l, w, p, who);
    var q := p.(rejections := rejections + [last], status := Rejected);
    assert "a" in q.approvals by { assert q.approvals[0] == "a"; }
    assert {"a", who} <= Supporters(w, q);
    SubsetCount({"a", who}, Supporters(w, q));
  }

  /** Three signers, nobody removed: `a` approves by proposing and then rejects, and so does `b`. */
  function WaveringRun(): seq<Step> {
    Opening(["a", "b", "c"]) + [Step(0, Reject("a", 1))]
  }

  /** An approver who rejects as well is still counted by the threshold, but no longer by the rejection test. */
  lemma WaveringApproverBlocks()
    ensures var l := Run(Init("z"), WaveringRun()); CutShort(l, Next(l, Step(0, Reject("b", 1))), "c")
  {
    var signers, steps := ["a", "b", "c"], Opening(["a", "b", "c"]);
    assert signers[0] == "a" && signers[1] == "b" && signers[2] == "c";
    AfterOpening(signers);
    RejectHeld(Run(Init("z"), steps), WalletOf(signers), ProposalWith([]), "a");
    assert [] + ["a"] == ["a"];
    RunAppend(Init("z"), steps, Step(0, Reject("a", 1)));
    CutShortHere(WaveringRun(), signers, ["a"], "b", "c");
  }

  /** A signer listed twice makes the rejection test wait for a vote that nobody can cast. */
  lemma RepeatedSignerStalls()
    ensures var l := Run(Init("z"), Opening(["a", "a", "b"]) + [Step(0, Reject("b", 1))]);
            && 1 in l.proposals && l.proposals[1].status == Pending && 1 in l.wallets && l.proposals[1].walletId == 1
            && !Reachable(l.wallets[1], l.proposals[1])
  {
    var signers, steps := ["a", "a", "b"], Opening(["a", "a", "b"]);
    assert signers[0] == "a" && signers[2] == "b";
    AfterOpening(signers);
    RejectHeld(Run(Init("z"), steps), WalletOf(signers), ProposalWith([]), "b");
    assert [] + ["b"] == ["b"];
    RunAppend(Init("z"), steps, Step(0, Reject("b", 1)));
    assert Supporters(WalletOf(signers), ProposalWith(["b"])) == {"a"};
  }
}
