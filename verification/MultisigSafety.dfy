/** What every run of the multisig keeps: a proposal executes only on enough distinct approvals, once, and in time. */
module MultisigSafety {
  import opened Primitives
  import opened MultisigLedger

  // ----- Reachable storage -----

  ghost predicate WalletInv(w: Wallet) {
    w.active && |w.signers| >= 2 && 1 <= w.threshold <= |w.signers|
  }

  /** Approvals needed: the proposer approves on creation without a threshold check, so one alone never executes. */
  function Quorum(w: Wallet): nat {
    if w.threshold < 2 then 2 else w.threshold
  }

  ghost predicate ProposalInv(l: Ledger, p: Proposal) {
    && p.walletId in l.wallets
    && p.amount > 0
    && Distinct(p.approvals) && Distinct(p.rejections)
    && var q := Quorum(l.wallets[p.walletId]);
    && 1 <= |p.approvals|
    && (p.status == Executed ==> |p.approvals| == q)
    && (p.status != Executed ==> |p.approvals| < q)
  }

  /** Executed payments published for proposal `id`. */
  function Payments(events: seq<Event>, id: U64): nat {
    if events == [] then 0
    else
      var e := events[|events| - 1];
      Payments(events[..|events| - 1], id) + if e.ExecutedPayment? && e.proposalId == id then 1 else 0
  }

  ghost predicate IsExecuted(l: Ledger, id: U64) {
    id in l.proposals && l.proposals[id].status == Executed
  }

  ghost predicate Inv(l: Ledger) {
    && !l.locked
    && (forall k: U64 :: k in l.wallets <==> 1 <= k <= l.walletCount)
    && (forall k: U64 :: k in l.wallets ==> l.wallets[k].id == k && WalletInv(l.wallets[k]))
    && (forall k: U64 :: k in l.proposals <==> 1 <= k <= l.proposalCount)
    && (forall k: U64 :: k in l.proposals ==> l.proposals[k].id == k && ProposalInv(l, l.proposals[k]))
  }

  /** How a stored proposal can move in one call: only while pending, and never in its terms. */
  ghost predicate Voted(p: Proposal, q: Proposal) {
    && q == p.(status := q.status, approvals := q.approvals, rejections := q.rejections)
    && (p.status != Pending ==> q == p)
  }

  ghost predicate SameTerms(v: Wallet, w: Wallet) {
    w == v.(signers := w.signers)
  }

  /** Only wallet `id` and the log changed: a new wallet under the next id, or new signers for an old one. */
  ghost predicate WalletPut(l: Ledger, l': Ledger, id: U64) {
    && id in l'.wallets && l'.wallets[id].id == id && WalletInv(l'.wallets[id])
    && l' == l.(wallets := l.wallets[id := l'.wallets[id]], walletCount := l'.walletCount, events := l'.events)
    && (if id in l.wallets then SameTerms(l.wallets[id], l'.wallets[id]) && l'.walletCount == l.walletCount
        else id == l.walletCount + 1 == l'.walletCount)
  }

  /** Only proposal `id` and the log changed: a new proposal under the next id, or a vote on an old one. */
  ghost predicate ProposalPut(l: Ledger, l': Ledger, id: U64) {
    && id in l'.proposals && l'.proposals[id].id == id && ProposalInv(l, l'.proposals[id])
    && l' == l.(proposals := l.proposals[id := l'.proposals[id]], proposalCount := l'.proposalCount,
                events := l'.events)
    && (if id in l.proposals then Voted(l.proposals[id], l'.proposals[id]) && l'.proposalCount == l.proposalCount
        else id == l.proposalCount + 1 == l'.proposalCount)
  }

  lemma WalletCallShape(l: Ledger, s: Step) returns (id: U64)
    requires Inv(l) && (s.call.CreateWallet? || s.call.AddSigner? || s.call.RemoveSigner?)
    ensures Next(l, s) == l || WalletPut(l, Next(l, s), id)
  {
    id := if s.call.CreateWallet? then Next(l, s).walletCount else s.call.walletId;
  }

  predicate IsVote(c: Call) {
    c.Approve? || c.Reject? || c.Cancel? || c.CheckExpiry?
  }

  lemma VoteShape(l: Ledger, s: Step)
    requires Inv(l) && IsVote(s.call)
    ensures Next(l, s) == l || (s.call.proposalId in l.proposals && ProposalPut(l, Next(l, s), s.call.proposalId))
  {
    if s.call.proposalId in l.proposals {
      assert ProposalInv(l, l.proposals[s.call.proposalId]);
    }
  }

  lemma ProposeShape(l: Ledger, s: Step)
    requires Inv(l) && s.call.CreateProposal?
    ensures Next(l, s) == l || (Next(l, s).proposalCount == l.proposalCount + 1
                                && ProposalPut(l, Next(l, s), Next(l, s).proposalCount))
  {
  }

  ghost predicate Kept(l: Ledger, l': Ledger) {
    && (forall k: U64 :: k in l.wallets ==> k in l'.wallets && SameTerms(l.wallets[k], l'.wallets[k]))
    && (forall k: U64 :: k in l.proposals ==> k in l'.proposals && Voted(l.proposals[k], l'.proposals[k]))
  }

  lemma WalletPutKeeps(l: Ledger, l': Ledger, id: U64)
    requires Inv(l) && WalletPut(l, l', id)
    ensures Kept(l, l')
  {
  }

  lemma ProposalPutKeeps(l: Ledger, l': Ledger, id: U64)
    requires Inv(l) && ProposalPut(l, l', id)
    ensures Kept(l, l')
  {
  }

  lemma WalletPutKeepsInv(l: Ledger, l': Ledger, id: U64)
    requires Inv(l) && WalletPut(l, l', id)
    ensures Inv(l')
  {
    forall k: U64 | k in l'.proposals ensures ProposalInv(l', l'.proposals[k]) {
      assert ProposalInv(l, l.proposals[k]);
    }
  }

  lemma ProposalPutKeepsInv(l: Ledger, l': Ledger, id: U64)
    requires Inv(l) && ProposalPut(l, l', id)
    ensures Inv(l')
  {
    forall k: U64 | k in l'.proposals ensures ProposalInv(l', l'.proposals[k]) {
      assert k != id ==> ProposalInv(l, l.proposals[k]);
    }
  }

  lemma StepKeepsInv(l: Ledger, s: Step)
    requires Inv(l)
    ensures Inv(Next(l, s)) && Kept(l, Next(l, s))
  {
    if s.call.CreateWallet? || s.call.AddSigner? || s.call.RemoveSigner? {
      WalletStepKeepsInv(l, s);
    } else if IsVote(s.call) || s.call.CreateProposal? {
      ProposalStepKeepsInv(l, s);
    }
  }

  lemma WalletStepKeepsInv(l: Ledger, s: Step)
    requires Inv(l) && (s.call.CreateWallet? || s.call.AddSigner? || s.call.RemoveSigner?)
    ensures Inv(Next(l, s)) && Kept(l, Next(l, s))
  {
    var id := WalletCallShape(l, s);
    var l' := Next(l, s);
    if l' != l {
      WalletPutKeepsInv(l, l', id);
      WalletPutKeeps(l, l', id);
    }
  }

  lemma ProposalStepKeepsInv(l: Ledger, s: Step)
    requires Inv(l) && (IsVote(s.call) || s.call.CreateProposal?)
    ensures Inv(Next(l, s)) && Kept(l, Next(l, s))
  {
    var l' := Next(l, s);
    var id := if s.call.CreateProposal? then l'.proposalCount else s.call.proposalId;
    if s.call.CreateProposal? {
      ProposeShape(l, s);
    } else {
      VoteShape(l, s);
    }
    if l' != l {
      ProposalPutKeepsInv(l, l', id);
      ProposalPutKeeps(l, l', id);
    }
  }

  lemma {:induction false} RunKeepsInv(admin: Address, steps: seq<Step>)
    ensures Inv(Run(Init(admin), steps))
  {
    if steps != [] {
      RunKeepsInv(admin, steps[..|steps| - 1]);
      StepKeepsInv(Run(Init(admin), steps[..|steps| - 1]), steps[|steps| - 1]);
    }
  }

  // ----- Decided proposals stay decided -----

  /** Once a proposal has left Pending, no run ever changes its record again; terms never change at all. */
  lemma {:induction false} DecidedForever(admin: Address, steps: seq<Step>, n: nat, id: U64)
    requires n <= |steps| && id in Run(Init(admin), steps[..n]).proposals
    ensures id in Run(Init(admin), steps).proposals
    ensures Voted(Run(Init(admin), steps[..n]).proposals[id], Run(Init(admin), steps).proposals[id])
  {
    if n == |steps| {
      assert steps[..n] == steps;
    } else {
      var before := steps[..|steps| - 1];
      assert before[..n] == steps[..n];
      DecidedForever(admin, before, n, id);
      RunKeepsInv(admin, before);
      StepKeepsInv(Run(Init(admin), before), steps[|steps| - 1]);
    }
  }

  // ----- Executed means paid once -----

  lemma PaymentsAppend(events: seq<Event>, e: seq<Event>, id: U64)
    requires |e| <= 1
    ensures Payments(events + e, id)
            == Payments(events, id) + if e != [] && e[0].ExecutedPayment? && e[0].proposalId == id then 1 else 0
  {
    if e == [] {
      assert events + e == events;
    } else {
      assert (events + e)[..|events + e| - 1] == events;
    }
  }

  /** `l'` published at most one event, `e`, and it is a payment exactly for a proposal that became executed. */
  ghost predicate Publishes(l: Ledger, l': Ledger, e: seq<Event>) {
    && |e| <= 1 && l'.events == l.events + e
    && forall id: U64 :: IsExecuted(l', id) && !IsExecuted(l, id) <==>
                         e != [] && e[0].ExecutedPayment? && e[0].proposalId == id
  }

  lemma VotePublishes(l: Ledger, s: Step) returns (e: seq<Event>)
    requires Inv(l) && IsVote(s.call)
    ensures Publishes(l, Next(l, s), e)
  {
    e := [];
    if Next(l, s) == l {
      assert l.events + e == l.events;
    } else {
      var id := s.call.proposalId;
      var p, q := l.proposals[id], Next(l, s).proposals[id];
      VoteShape(l, s);
      e := match q.status
           case Executed => [ExecutedPayment(id, p.walletId, p.amount, p.recipient)]
           case Rejected => [RejectedProposal(id, p.walletId)]
           case Cancelled => [CancelledProposal(id, p.walletId)]
           case Expired => [ExpiredProposal(id, p.walletId)]
           case Pending => [];
    }
  }

  lemma OtherPublishes(l: Ledger, s: Step) returns (e: seq<Event>)
    requires Inv(l) && !IsVote(s.call)
    ensures Publishes(l, Next(l, s), e)
  {
    var l' := Next(l, s);
    e := [];
    if l' == l {
      assert l.events + e == l.events;
    } else {
      e := match s.call
           case CreateWallet(_, _, t, _) => [WalletCreated(l'.walletCount, t)]
           case AddSigner(_, w, x) => [SignerAdded(w, x)]
           case RemoveSigner(_, w, x) => [SignerRemoved(w, x)]
           case CreateProposal(_, w, a, r, _) => [Proposed(l'.proposalCount, w, a, r)]
           case SetPaused(_, on) => [CircuitPaused(on)]
           case _ => [];
    }
  }

  lemma StepPays(l: Ledger, s: Step, id: U64)
    requires Inv(l)
    ensures Payments(Next(l, s).events, id)
            == Payments(l.events, id) + if IsExecuted(Next(l, s), id) && !IsExecuted(l, id) then 1 else 0
  {
    var e: seq<Event>;
    if IsVote(s.call) {
      e := VotePublishes(l, s);
    } else {
      e := OtherPublishes(l, s);
    }
    PaymentsAppend(l.events, e, id);
  }

  /** The payment event of a proposal is published exactly once if it is executed, and never otherwise. */
  lemma {:induction false} PaidExactlyOnce(admin: Address, steps: seq<Step>, id: U64)
    ensures var l := Run(Init(admin), steps);
            Payments(l.events, id) == if IsExecuted(l, id) then 1 else 0
  {
    if steps != [] {
      var before := steps[..|steps| - 1];
      PaidExactlyOnce(admin, before, id);
      RunKeepsInv(admin, before);
      StepKeepsInv(Run(Init(admin), before), steps[|steps| - 1]);
      StepPays(Run(Init(admin), before), steps[|steps| - 1], id);
    }
  }

  // ----- Every approval was cast by a signer, in time -----

  /** Step `i` cast `who`'s approval of proposal `id`, while `who` was a signer and the proposal had not expired. */
  ghost predicate Cast(admin: Address, steps: seq<Step>, i: nat, id: U64, who: Address) {
    && i < |steps|
    && var l := Run(Init(admin), steps[..i]);
    && CastIn(l, steps[i], id, who)
  }

  ghost predicate CastIn(l: Ledger, s: Step, id: U64, who: Address) {
    && id in Next(l, s).proposals
    && var p := Next(l, s).proposals[id];
    && p.walletId in l.wallets && who in l.wallets[p.walletId].signers
    && (p.expiresAt == 0 || s.now < p.expiresAt || s.call.CreateProposal?)
    && (s.call == Approve(who, id) || (s.call.CreateProposal? && s.call.proposer == who && id !in l.proposals))
  }

  lemma NewApprovalIsCast(l: Ledger, s: Step, id: U64, who: Address)
    requires Inv(l) && id in Next(l, s).proposals && who in Next(l, s).proposals[id].approvals
    requires id in l.proposals ==> who !in l.proposals[id].approvals
    ensures CastIn(l, s, id, who)
  {
    if IsVote(s.call) {
      VoteShape(l, s);
    }
  }

  lemma {:induction false} ApprovalWasCast(admin: Address, steps: seq<Step>, id: U64, who: Address) returns (i: nat)
    requires id in Run(Init(admin), steps).proposals && who in Run(Init(admin), steps).proposals[id].approvals
    ensures Cast(admin, steps, i, id, who)
  {
    if steps == [] {
      assert false;
    } else {
      var before, last := steps[..|steps| - 1], steps[|steps| - 1];
      var l := Run(Init(admin), before);
      RunKeepsInv(admin, before);
      if id in l.proposals && who in l.proposals[id].approvals {
        i := ApprovalWasCast(admin, before, id, who);
        assert before[..i] == steps[..i] && before[i] == steps[i];
      } else {
        NewApprovalIsCast(l, last, id, who);
        i := |steps| - 1;
      }
    }
  }

  lemma ExecutingStep(l: Ledger, s: Step, id: U64)
    requires Inv(l) && IsExecuted(Next(l, s), id) && !IsExecuted(l, id)
    ensures s.call.Approve? && s.call.proposalId == id && id in l.proposals && l.proposals[id].status == Pending
    ensures var p := Next(l, s).proposals[id]; p.expiresAt == 0 || s.now < p.expiresAt
  {
    if IsVote(s.call) {
      VoteShape(l, s);
    }
  }

  /**
   * An executed proposal carries exactly quorum many distinct approvals, each cast by someone who signed for its
   * wallet at that moment, and the step that executed it ran before its expiry.
   */
  lemma ExecutionIsAuthorised(admin: Address, steps: seq<Step>, id: U64) returns (i: nat)
    requires IsExecuted(Run(Init(admin), steps), id)
    ensures var l := Run(Init(admin), steps);
            var p := l.proposals[id];
            && p.walletId in l.wallets
            && Distinct(p.approvals) && |p.approvals| == Quorum(l.wallets[p.walletId])
            && (forall who :: who in p.approvals ==> exists j :: Cast(admin, steps, j, id, who))
            && i < |steps| && !IsExecuted(Run(Init(admin), steps[..i]), id)
            && (p.expiresAt == 0 || steps[i].now < p.expiresAt)
            && steps[i].call.Approve? && steps[i].call.proposalId == id
  {
    RunKeepsInv(admin, steps);
    var l := Run(Init(admin), steps);
    assert ProposalInv(l, l.proposals[id]);
    forall who | who in l.proposals[id].approvals ensures exists j :: Cast(admin, steps, j, id, who) {
      var j := ApprovalWasCast(admin, steps, id, who);
    }
    i := WhenExecuted(admin, steps, id);
  }

  lemma ExecutedStays(l: Ledger, s: Step, id: U64)
    requires Inv(l) && IsExecuted(l, id)
    ensures IsExecuted(Next(l, s), id) && Next(l, s).proposals[id] == l.proposals[id]
  {
    StepKeepsInv(l, s);
  }

  lemma {:induction false} WhenExecuted(admin: Address, steps: seq<Step>, id: U64) returns (i: nat)
    requires IsExecuted(Run(Init(admin), steps), id)
    ensures i < |steps| && !IsExecuted(Run(Init(admin), steps[..i]), id)
    ensures steps[i].call.Approve? && steps[i].call.proposalId == id
    ensures var p := Run(Init(admin), steps).proposals[id]; p.expiresAt == 0 || steps[i].now < p.expiresAt
  {
    if steps == [] {
      assert false;
    } else {
      var before, last := steps[..|steps| - 1], steps[|steps| - 1];
      var l := Run(Init(admin), before);
      RunKeepsInv(admin, before);
      if IsExecuted(l, id) {
        i := WhenExecuted(admin, before, id);
        assert before[..i] == steps[..i] && before[i] == steps[i];
        ExecutedStays(l, last, id);
      } else {
        ExecutingStep(l, last, id);
        i := |steps| - 1;
      }
    }
  }

  // ----- When a rejection blocks -----

  function Members(s: seq<Address>): set<Address> {
    set x | x in s
  }

  /** Signers of `w` who have not rejected `p`. */
  function Remaining(w: Wallet, p: Proposal): nat {
    |Members(w.signers) - Members(p.rejections)|
  }

  /** Rejections of `p` by accounts that no longer sign for `w`. */
  function Stale(w: Wallet, p: Proposal): nat {
    |Members(p.rejections) - Members(w.signers)|
  }

  /** Repeated entries in the signer list. */
  function Repeats(w: Wallet): nat
    ensures Repeats(w) == 0 <==> Distinct(w.signers)
  {
    MembersCount(w.signers);
    |w.signers| - |Members(w.signers)|
  }

  lemma {:induction false} MembersCount(s: seq<Address>)
    ensures |Members(s)| <= |s|
    ensures |Members(s)| == |s| <==> Distinct(s)
  {
    if s != [] {
      var t, x := s[..|s| - 1], s[|s| - 1];
      MembersCount(t);
      assert Members(s) == Members(t) + {x};
      if x in t {
        assert Members(s) == Members(t);
        var i :| 0 <= i < |t| && t[i] == x;
        assert s[i] == s[|s| - 1];
      } else {
        assert Distinct(t) ==> Distinct(s);
        assert Distinct(s) ==> Distinct(t) by {
          if Distinct(s) {
            assert forall i, j :: 0 <= i < j < |t| ==> s[i] != s[j];
          }
        }
      }
    }
  }

  lemma BlockingCount(w: Wallet, p: Proposal)
    requires Distinct(p.rejections)
    ensures |p.rejections| >= |w.signers| - w.threshold + 1
            <==> Remaining(w, p) + Repeats(w) < w.threshold + Stale(w, p)
  {
    var sig, rej := Members(w.signers), Members(p.rejections);
    MembersCount(p.rejections);
    assert |sig| == |sig - rej| + |sig * rej| by { assert sig == (sig - rej) + (sig * rej); }
    assert |rej| == |rej - sig| + |sig * rej| by { assert rej == (rej - sig) + (sig * rej); }
  }

  /** `l'` is `l` after a new rejection of `id` by `who`, with the code's own blocking test. */
  ghost predicate Rejects(l: Ledger, l': Ledger, id: U64, who: Address) {
    && id in l.proposals && id in l'.proposals && l.proposals[id].walletId in l.wallets
    && var p, q, w := l.proposals[id], l'.proposals[id], l.wallets[l.proposals[id].walletId];
    && l' == l.(proposals := l.proposals[id := q], events := l'.events)
    && p.status == Pending && who in w.signers && who !in p.rejections
    && q == p.(rejections := p.rejections + [who], status := q.status)
    && (if |q.rejections| >= |w.signers| - w.threshold + 1 then q.status == Rejected else q.status == Pending)
  }

  lemma RejectShape(l: Ledger, s: Step)
    requires Inv(l) && s.call.Reject? && Next(l, s) != l
    ensures Rejects(l, Next(l, s), s.call.proposalId, s.call.caller)
    ensures Distinct(Next(l, s).proposals[s.call.proposalId].rejections)
  {
    assert ProposalInv(l, l.proposals[s.call.proposalId]);
  }

  /**
   * The exact law of the blocking test, for every signer list: an accepted new rejection turns the proposal Rejected
   * if and only if the signers left, plus repeated entries, fall short of the threshold plus the stale rejections.
   */
  lemma RejectionLaw(l: Ledger, s: Step)
    requires Inv(l) && s.call.Reject? && Next(l, s) != l
    ensures var id := s.call.proposalId;
            && id in l.proposals && id in Next(l, s).proposals && l.proposals[id].walletId in l.wallets
            && var p, w := Next(l, s).proposals[id], l.wallets[l.proposals[id].walletId];
            && p.rejections == l.proposals[id].rejections + [s.call.caller]
            && (p.status == Rejected <==> Remaining(w, p) + Repeats(w) < w.threshold + Stale(w, p))
  {
    RejectShape(l, s);
    var id := s.call.proposalId;
    BlockingCount(l.wallets[l.proposals[id].walletId], Next(l, s).proposals[id]);
  }

  /** The list of wallet `w` is never edited in the run. */
  ghost predicate Untouched(steps: seq<Step>, w: U64) {
    forall s :: s in steps ==> !((s.call.AddSigner? || s.call.RemoveSigner?) && s.call.walletId == w)
  }

  /** Rejectors are current signers, and Rejected means exactly that too few signers are left. */
  ghost predicate ExactlyBlocked(l: Ledger, w: U64) {
    w in l.wallets ==>
      forall k: U64 :: k in l.proposals && l.proposals[k].walletId == w ==>
        var p := l.proposals[k];
        && Members(p.rejections) <= Members(l.wallets[w].signers)
        && (p.status == Rejected <==> Remaining(l.wallets[w], p) < l.wallets[w].threshold)
  }

  lemma WalletKeepsBlocked(l: Ledger, s: Step, w: U64)
    requires Inv(l) && ExactlyBlocked(l, w) && Untouched([s], w)
    requires s.call.CreateWallet? || s.call.AddSigner? || s.call.RemoveSigner?
    ensures ExactlyBlocked(Next(l, s), w)
  {
    var l' := Next(l, s);
    assert s in [s];
    var id := WalletCallShape(l, s);
    forall k: U64 | k in l'.proposals && l'.proposals[k].walletId == w ensures w in l.wallets {
      assert l' == l || WalletPut(l, l', id);
      assert ProposalInv(l, l.proposals[k]);
    }
  }

  lemma NewProposalIsUnblocked(w: Wallet, p: Proposal)
    requires p.rejections == [] && Distinct(w.signers) && w.threshold <= |w.signers|
    ensures Members(p.rejections) <= Members(w.signers) && Remaining(w, p) >= w.threshold
  {
    assert Members(w.signers) - Members(p.rejections) == Members(w.signers);
    MembersCount(w.signers);
  }

  lemma ProposeKeepsBlocked(l: Ledger, s: Step, w: U64)
    requires Inv(l) && ExactlyBlocked(l, w) && s.call.CreateProposal?
    requires w in l.wallets && Distinct(l.wallets[w].signers)
    ensures ExactlyBlocked(Next(l, s), w)
  {
    var l' := Next(l, s);
    if l' != l {
      ProposeShape(l, s);
      var p := l'.proposals[l'.proposalCount];
      assert p.rejections == [] && p.status == Pending;
      NewProposalIsUnblocked(l.wallets[w], p);
    }
  }

  lemma RejectKeepsBlocked(l: Ledger, l': Ledger, id: U64, who: Address, w: U64)
    requires Inv(l) && ExactlyBlocked(l, w) && Rejects(l, l', id, who)
    requires w in l.wallets && Distinct(l.wallets[w].signers) && Distinct(l'.proposals[id].rejections)
    ensures ExactlyBlocked(l', w)
  {
    var p, q := l.proposals[id], l'.proposals[id];
    if p.walletId == w {
      BlockingCount(l.wallets[w], q);
      assert Members(q.rejections) == Members(p.rejections) + {who};
      assert Members(q.rejections) - Members(l.wallets[w].signers) == {};
    }
  }

  lemma OtherVoteShape(l: Ledger, s: Step)
    requires Inv(l) && IsVote(s.call) && !s.call.Reject? && Next(l, s) != l
    ensures var id := s.call.proposalId;
            && id in l.proposals && id in Next(l, s).proposals
            && var p, q := l.proposals[id], Next(l, s).proposals[id];
            && q.rejections == p.rejections && q.walletId == p.walletId
            && p.status != Rejected && q.status != Rejected
            && Next(l, s) == l.(proposals := l.proposals[id := q], events := Next(l, s).events)
  {
  }

  lemma VoteKeepsBlocked(l: Ledger, s: Step, w: U64)
    requires Inv(l) && ExactlyBlocked(l, w) && IsVote(s.call)
    requires w in l.wallets && Distinct(l.wallets[w].signers)
    ensures ExactlyBlocked(Next(l, s), w)
  {
    if Next(l, s) != l {
      if s.call.Reject? {
        RejectShape(l, s);
        RejectKeepsBlocked(l, Next(l, s), s.call.proposalId, s.call.caller, w);
      } else {
        OtherVoteShape(l, s);
      }
    }
  }

  /** With an unedited, repeat-free list a proposal is Rejected exactly when too few signers have not rejected it. */
  lemma {:induction false} RejectedExactly(admin: Address, steps: seq<Step>, w: U64)
    requires Untouched(steps, w)
    requires w in Run(Init(admin), steps).wallets && Distinct(Run(Init(admin), steps).wallets[w].signers)
    ensures ExactlyBlocked(Run(Init(admin), steps), w)
  {
    if steps != [] {
      var before, last := steps[..|steps| - 1], steps[|steps| - 1];
      var l := Run(Init(admin), before);
      RunKeepsInv(admin, before);
      assert Untouched(before, w) && Untouched([last], w);
      assert last in steps;
      if w in l.wallets {
        WalletKept(l, last, w);
        RejectedExactly(admin, before, w);
      }
      if last.call.CreateWallet? || last.call.AddSigner? || last.call.RemoveSigner? {
        WalletKeepsBlocked(l, last, w);
      } else if last.call.CreateProposal? {
        ProposeKeepsBlocked(l, last, w);
      } else if IsVote(last.call) {
        VoteKeepsBlocked(l, last, w);
      }
    }
  }

  lemma WalletKept(l: Ledger, s: Step, w: U64)
    requires Inv(l) && Untouched([s], w) && w in l.wallets
    ensures w in Next(l, s).wallets && Next(l, s).wallets[w] == l.wallets[w]
  {
    assert s in [s];
    StepKeepsInv(l, s);
    if s.call.CreateWallet? || s.call.AddSigner? || s.call.RemoveSigner? {
      var id := WalletCallShape(l, s);
    }
  }
}
