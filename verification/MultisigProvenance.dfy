/** What stands behind the multisig's records and payments: who may call what, and which call set each term. */
module MultisigProvenance {
  import opened Primitives
  import opened MultisigLedger
  import opened MultisigSafety

  // ----- Who may call what, and when -----

  /** Proposal `id` is pending and `who` signs for its wallet now. */
  predicate MayVote(l: Ledger, who: Address, id: U64) {
    && id in l.proposals && l.proposals[id].status == Pending
    && l.proposals[id].walletId in l.wallets && who in l.wallets[l.proposals[id].walletId].signers
  }

  /** The access rules of the entry points. */
  predicate Allowed(l: Ledger, s: Step) {
    match s.call
    case CreateWallet(_, signers, threshold, _) =>
      !l.paused && |signers| >= 2 && 1 <= threshold <= |signers| && l.walletCount < U64_MAX
    case AddSigner(who, w, _) => !l.paused && w in l.wallets && who in l.wallets[w].signers
    case RemoveSigner(who, w, x) =>
      && !l.paused && w in l.wallets && who in l.wallets[w].signers && x in l.wallets[w].signers
      && |l.wallets[w].signers| > 2 && |l.wallets[w].signers| > l.wallets[w].threshold
    case CreateProposal(who, w, amount, _, _) =>
      && !l.paused && w in l.wallets && who in l.wallets[w].signers && amount > 0 && l.proposalCount < U64_MAX
      && s.now + l.wallets[w].timeout <= U64_MAX
    case Approve(who, id) =>
      !l.paused && MayVote(l, who, id) && (l.proposals[id].expiresAt == 0 || s.now < l.proposals[id].expiresAt)
    case Reject(who, id) => !l.paused && MayVote(l, who, id)
    case Cancel(who, id) => !l.paused && MayVote(l, who, id)
    case CheckExpiry(id) => id in l.proposals
    case SetPaused(who, _) => who == l.admin
  }

  lemma StepAllowed(l: Ledger, s: Step)
    requires Inv(l)
    ensures Apply(l, s.now, s.call).Return? <==> Allowed(l, s)
  {
    if IsVote(s.call) && s.call.proposalId in l.proposals {
      assert ProposalInv(l, l.proposals[s.call.proposalId]);
    }
  }

  /** In every reachable state a call is accepted exactly when the access rules allow it. */
  lemma AcceptedExactly(admin: Address, steps: seq<Step>, s: Step)
    ensures var l := Run(Init(admin), steps); Apply(l, s.now, s.call).Return? <==> Allowed(l, s)
  {
    RunKeepsInv(admin, steps);
    StepAllowed(Run(Init(admin), steps), s);
  }

  lemma StepKeepsAdmin(l: Ledger, s: Step)
    requires Inv(l)
    ensures Next(l, s).admin == l.admin
  {
    if s.call.CreateWallet? || s.call.AddSigner? || s.call.RemoveSigner? {
      var id := WalletCallShape(l, s);
    } else if IsVote(s.call) {
      VoteShape(l, s);
    } else if s.call.CreateProposal? {
      ProposeShape(l, s);
    }
  }

  lemma {:induction false} AdminStays(admin: Address, steps: seq<Step>)
    ensures Run(Init(admin), steps).admin == admin
  {
    if steps != [] {
      AdminStays(admin, steps[..|steps| - 1]);
      RunKeepsInv(admin, steps[..|steps| - 1]);
      StepKeepsAdmin(Run(Init(admin), steps[..|steps| - 1]), steps[|steps| - 1]);
    }
  }

  /** What the administrator last asked for. */
  function LastSwitch(admin: Address, steps: seq<Step>): bool {
    if steps == [] then false
    else
      match steps[|steps| - 1].call
      case SetPaused(who, on) => if who == admin then on else LastSwitch(admin, steps[..|steps| - 1])
      case _ => LastSwitch(admin, steps[..|steps| - 1])
  }

  lemma OthersKeepPause(l: Ledger, s: Step)
    requires Inv(l) && !s.call.SetPaused?
    ensures Next(l, s).paused == l.paused
  {
    if s.call.CreateWallet? || s.call.AddSigner? || s.call.RemoveSigner? {
      var id := WalletCallShape(l, s);
    } else if IsVote(s.call) {
      VoteShape(l, s);
    } else {
      ProposeShape(l, s);
    }
  }

  /** The contract is paused exactly when the administrator's last switch was on. */
  lemma {:induction false} PausedExactly(admin: Address, steps: seq<Step>)
    ensures Run(Init(admin), steps).paused == LastSwitch(admin, steps)
  {
    if steps != [] {
      var before, last := steps[..|steps| - 1], steps[|steps| - 1];
      PausedExactly(admin, before);
      RunKeepsInv(admin, before);
      AdminStays(admin, before);
      if !last.call.SetPaused? {
        OthersKeepPause(Run(Init(admin), before), last);
      }
    }
  }

  // ----- Where a proposal comes from, and whom it pays -----

  /** Step `i` is call `c` and did not panic. */
  ghost predicate Accepted(admin: Address, steps: seq<Step>, i: nat, c: Call) {
    i < |steps| && steps[i].call == c && Apply(Run(Init(admin), steps[..i]), steps[i].now, c).Return?
  }

  lemma AcceptedExtends(admin: Address, steps: seq<Step>, i: nat, c: Call)
    requires steps != [] && Accepted(admin, steps[..|steps| - 1], i, c)
    ensures Accepted(admin, steps, i, c)
  {
    assert steps[..|steps| - 1][..i] == steps[..i];
  }

  /** `s`, run from `l`, proposes the terms of `p`, by its first approver; the wallet's timeout sets the expiry. */
  predicate Proposes(l: Ledger, s: Step, id: U64, p: Proposal) {
    && id == l.proposalCount + 1 && p.walletId in l.wallets && p.approvals != []
    && s.call == CreateProposal(p.approvals[0], p.walletId, p.amount, p.recipient, p.description)
    && p.createdAt == s.now
    && p.expiresAt == if l.wallets[p.walletId].timeout == 0 then 0 else s.now + l.wallets[p.walletId].timeout
  }

  lemma NewIsProposed(l: Ledger, s: Step, id: U64)
    requires Inv(l) && id !in l.proposals && id in Next(l, s).proposals
    ensures Apply(l, s.now, s.call).Return? && Proposes(l, s, id, Next(l, s).proposals[id])
    ensures Next(l, s).proposals[id].status == Pending && Next(l, s).proposals[id].rejections == []
  {
    if IsVote(s.call) {
      VoteShape(l, s);
    }
  }

  lemma VoteGrows(l: Ledger, s: Step, id: U64)
    requires Inv(l) && IsVote(s.call) && id in l.proposals
    ensures id in Next(l, s).proposals && l.proposals[id].approvals <= Next(l, s).proposals[id].approvals
  {
  }

  lemma ApprovalsGrow(l: Ledger, s: Step, id: U64)
    requires Inv(l) && id in l.proposals
    ensures id in Next(l, s).proposals && l.proposals[id].approvals <= Next(l, s).proposals[id].approvals
  {
    if IsVote(s.call) {
      VoteGrows(l, s, id);
    } else if s.call.CreateProposal? {
      ProposeShape(l, s);
    } else if !s.call.SetPaused? {
      var w := WalletCallShape(l, s);
    }
  }

  lemma StillProposed(l: Ledger, s: Step, id: U64, p: Proposal, q: Proposal)
    requires Proposes(l, s, id, p) && Voted(p, q) && p.approvals <= q.approvals
    ensures Proposes(l, s, id, q)
  {
    assert q.approvals[0] == p.approvals[0];
  }

  /** Every proposal has the wallet, amount, recipient, description and expiry of the accepted call that proposed it. */
  lemma {:induction false} TermsAreAsProposed(admin: Address, steps: seq<Step>, id: U64) returns (i: nat)
    requires id in Run(Init(admin), steps).proposals
    ensures i < |steps| && Accepted(admin, steps, i, steps[i].call)
    ensures Proposes(Run(Init(admin), steps[..i]), steps[i], id, Run(Init(admin), steps).proposals[id])
  {
    if steps == [] {
      assert false;
    } else {
      var before, last := steps[..|steps| - 1], steps[|steps| - 1];
      var l := Run(Init(admin), before);
      RunKeepsInv(admin, before);
      if id in l.proposals {
        i := TermsAreAsProposed(admin, before, id);
        AcceptedExtends(admin, steps, i, before[i].call);
        assert before[..i] == steps[..i];
        ApprovalsGrow(l, last, id);
        StepKeepsInv(l, last);
        StillProposed(Run(Init(admin), steps[..i]), steps[i], id, l.proposals[id], Next(l, last).proposals[id]);
      } else {
        i := |steps| - 1;
        NewIsProposed(l, last, id);
      }
    }
  }

  // ----- The log -----

  /** What an allowed call publishes, told from the records before it. */
  function Said(l: Ledger, s: Step): seq<Event>
    requires Inv(l) && Allowed(l, s)
  {
    match s.call
    case CreateWallet(_, _, threshold, _) => [WalletCreated(l.walletCount + 1, threshold)]
    case AddSigner(_, w, x) => [SignerAdded(w, x)]
    case RemoveSigner(_, w, x) => [SignerRemoved(w, x)]
    case CreateProposal(_, w, amount, to, _) => [Proposed(l.proposalCount + 1, w, amount, to)]
    case Approve(who, id) =>
      var p := l.proposals[id];
      if who !in p.approvals && |p.approvals| + 1 >= l.wallets[p.walletId].threshold
      then [ExecutedPayment(id, p.walletId, p.amount, p.recipient)] else []
    case Reject(who, id) =>
      var p, w := l.proposals[id], l.wallets[l.proposals[id].walletId];
      if who !in p.rejections && |p.rejections| + w.threshold >= |w.signers|
      then [RejectedProposal(id, p.walletId)] else []
    case Cancel(_, id) => [CancelledProposal(id, l.proposals[id].walletId)]
    case CheckExpiry(id) =>
      var p := l.proposals[id];
      if p.status == Pending && p.expiresAt != 0 && s.now >= p.expiresAt
      then [ExpiredProposal(id, p.walletId)] else []
    case SetPaused(_, on) => [CircuitPaused(on)]
  }

  /** Every call publishes what it is to say if it is allowed, and nothing otherwise. */
  lemma StepSays(l: Ledger, s: Step)
    requires Inv(l)
    ensures Next(l, s).events == l.events + if Allowed(l, s) then Said(l, s) else []
  {
    StepAllowed(l, s);
    assert l.events + [] == l.events;
  }

  /** What an event says is so in the records. */
  predicate TrueOf(l: Ledger, e: Event) {
    match e
    case WalletCreated(w, threshold) => w in l.wallets && l.wallets[w].threshold == threshold
    case Proposed(id, w, amount, to) =>
      && id in l.proposals && l.proposals[id].walletId == w && l.proposals[id].amount == amount
      && l.proposals[id].recipient == to
    case ExecutedPayment(id, w, amount, to) =>
      && id in l.proposals && l.proposals[id].walletId == w && l.proposals[id].amount == amount
      && l.proposals[id].recipient == to && l.proposals[id].status == Executed
    case RejectedProposal(id, w) =>
      id in l.proposals && l.proposals[id].walletId == w && l.proposals[id].status == Rejected
    case CancelledProposal(id, w) =>
      id in l.proposals && l.proposals[id].walletId == w && l.proposals[id].status == Cancelled
    case ExpiredProposal(id, w) =>
      id in l.proposals && l.proposals[id].walletId == w && l.proposals[id].status == Expired
    case _ => true
  }

  lemma StaysTrue(l: Ledger, s: Step, e: Event)
    requires Inv(l) && TrueOf(l, e)
    ensures TrueOf(Next(l, s), e)
  {
    StepKeepsInv(l, s);
  }

  lemma SaidIsTrue(l: Ledger, s: Step)
    requires Inv(l) && Allowed(l, s)
    ensures forall e :: e in Said(l, s) ==> TrueOf(Next(l, s), e)
  {
    StepAllowed(l, s);
  }

  /** Everything the log says is true, now and after any further run: a payment names its proposal's own terms. */
  lemma {:induction false} LogIsTrue(admin: Address, steps: seq<Step>, e: Event)
    requires e in Run(Init(admin), steps).events
    ensures TrueOf(Run(Init(admin), steps), e)
  {
    if steps != [] {
      var before, last := steps[..|steps| - 1], steps[|steps| - 1];
      var l := Run(Init(admin), before);
      RunKeepsInv(admin, before);
      StepSays(l, last);
      if e in l.events {
        LogIsTrue(admin, before, e);
        StaysTrue(l, last, e);
      } else {
        SaidIsTrue(l, last);
      }
    }
  }

  /**
   * Behind every payment of every run: an accepted proposal of exactly this wallet, amount and recipient, quorum many
   * distinct approvals cast by signers, and an approval in time that executed it.
   */
  lemma PaymentIsAuthorised(admin: Address, steps: seq<Step>, e: Event) returns (c: nat, i: nat)
    requires e in Run(Init(admin), steps).events && e.ExecutedPayment?
    ensures c < |steps| && Accepted(admin, steps, c, steps[c].call)
    ensures Run(Init(admin), steps[..c]).proposalCount + 1 == e.proposalId
    ensures steps[c].call.CreateProposal? && steps[c].call.walletId == e.walletId
    ensures steps[c].call.amount == e.amount && steps[c].call.recipient == e.recipient
    ensures i < |steps| && steps[i].call.Approve? && steps[i].call.proposalId == e.proposalId
    ensures var l := Run(Init(admin), steps);
            && IsExecuted(l, e.proposalId) && e.walletId in l.wallets
            && var p := l.proposals[e.proposalId];
            && Distinct(p.approvals) && |p.approvals| == Quorum(l.wallets[e.walletId])
            && (forall who :: who in p.approvals ==> exists j :: Cast(admin, steps, j, e.proposalId, who))
            && (p.expiresAt == 0 || steps[i].now < p.expiresAt)
  {
    LogIsTrue(admin, steps, e);
    c := TermsAreAsProposed(admin, steps, e.proposalId);
    i := ExecutionIsAuthorised(admin, steps, e.proposalId);
  }

  // ----- What stands behind a decision -----

  /** Step `s`, run from `l`, decides pending proposal `id` as `status`, by someone entitled and in time. */
  predicate Decides(l: Ledger, s: Step, id: U64, status: ProposalStatus) {
    && id in l.proposals && l.proposals[id].status == Pending
    && var p := l.proposals[id];
    && match status
       case Pending => false
       case Executed => s.call.Approve? && s.call.proposalId == id && MayVote(l, s.call.caller, id)
       case Rejected => s.call.Reject? && s.call.proposalId == id && MayVote(l, s.call.caller, id)
       case Cancelled => s.call.Cancel? && s.call.proposalId == id && MayVote(l, s.call.caller, id)
       case Expired => s.call == CheckExpiry(id) && p.expiresAt != 0 && s.now >= p.expiresAt
  }

  lemma StepDecides(l: Ledger, s: Step, id: U64)
    requires Inv(l) && id in Next(l, s).proposals && Next(l, s).proposals[id].status != Pending
    requires id !in l.proposals || l.proposals[id].status == Pending
    ensures Apply(l, s.now, s.call).Return? && Decides(l, s, id, Next(l, s).proposals[id].status)
  {
    if IsVote(s.call) {
      VoteDecides(l, s, id);
    } else if s.call.CreateProposal? {
      ProposeShape(l, s);
    } else if !s.call.SetPaused? {
      var w := WalletCallShape(l, s);
    }
  }

  lemma VoteDecides(l: Ledger, s: Step, id: U64)
    requires Inv(l) && IsVote(s.call) && id in Next(l, s).proposals && Next(l, s).proposals[id].status != Pending
    requires id !in l.proposals || l.proposals[id].status == Pending
    ensures Apply(l, s.now, s.call).Return? && Decides(l, s, id, Next(l, s).proposals[id].status)
  {
  }

  /** Behind every decision stands one accepted step: a signer's vote or cancellation, or a due expiry check. */
  lemma {:induction false} DecisionHasCause(admin: Address, steps: seq<Step>, id: U64) returns (i: nat)
    requires id in Run(Init(admin), steps).proposals && Run(Init(admin), steps).proposals[id].status != Pending
    ensures i < |steps| && Accepted(admin, steps, i, steps[i].call)
    ensures Decides(Run(Init(admin), steps[..i]), steps[i], id, Run(Init(admin), steps).proposals[id].status)
  {
    if steps == [] {
      assert false;
    } else {
      var before, last := steps[..|steps| - 1], steps[|steps| - 1];
      var l := Run(Init(admin), before);
      RunKeepsInv(admin, before);
      if id in l.proposals && l.proposals[id].status != Pending {
        StepKeepsInv(l, last);
        i := DecisionHasCause(admin, before, id);
        AcceptedExtends(admin, steps, i, before[i].call);
        assert before[..i] == steps[..i];
      } else {
        StepDecides(l, last, id);
        i := |steps| - 1;
      }
    }
  }

  /** The other way round: a signer's cancellation of a pending proposal is accepted and stored. */
  lemma CancelCancels(admin: Address, steps: seq<Step>, who: Address, id: U64, now: U64)
    requires var l := Run(Init(admin), steps); !l.paused && MayVote(l, who, id)
    ensures var l, s := Run(Init(admin), steps), Step(now, Cancel(who, id));
            && id in Next(l, s).proposals && Next(l, s).proposals[id] == l.proposals[id].(status := Cancelled)
  {
    RunKeepsInv(admin, steps);
  }

  /** An expiry check marks exactly the pending proposals whose expiry has come, and says so; paused or not. */
  lemma ExpiryExpires(admin: Address, steps: seq<Step>, id: U64, now: U64)
    requires id in Run(Init(admin), steps).proposals
    ensures var l, c := Run(Init(admin), steps), CheckExpiry(id);
            var p, out := l.proposals[id], Apply(l, now, c);
            && out.Return?
            && (out.value == Flag(true) <==> p.status == Pending && p.expiresAt != 0 && now >= p.expiresAt)
            && (out.value == Flag(true) ==>
                  id in out.ledger.proposals && out.ledger.proposals[id] == p.(status := Expired))
            && (out.value != Flag(true) ==> out == Return(l, Flag(false)))
  {
    RunKeepsInv(admin, steps);
  }

  // ----- Wallets and their signers -----

  /** Step `s`, run from `l`, creates wallet `w` with the threshold and timeout of `wallet`. */
  predicate CreatesWallet(l: Ledger, s: Step, w: U64, wallet: Wallet) {
    && w == l.walletCount + 1 && s.call.CreateWallet?
    && s.call.threshold == wallet.threshold && s.call.timeout == wallet.timeout
  }

  /** Step `s`, run from `l`, gives `x` a place in wallet `w`: at its creation, or added by a signer of that moment. */
  predicate Enrols(l: Ledger, s: Step, w: U64, x: Address) {
    || (w == l.walletCount + 1 && s.call.CreateWallet? && x in s.call.signers)
    || (w in l.wallets && s.call.AddSigner? && s.call.walletId == w && s.call.signer == x
        && s.call.authorizer in l.wallets[w].signers)
  }

  /** Accepted edits: an added signer goes to the end, and a removed one leaves its last place. */
  lemma EditsAreExact(l: Ledger, s: Step, w: U64) returns (a: seq<Address>, b: seq<Address>)
    requires Inv(l) && Allowed(l, s) && w in l.wallets
    requires (s.call.AddSigner? || s.call.RemoveSigner?) && s.call.walletId == w
    ensures w in Next(l, s).wallets
    ensures var was, after := l.wallets[w].signers, Next(l, s).wallets[w].signers;
            if s.call.AddSigner? then after == was + [s.call.signer]
            else was == a + [s.call.signer] + b && after == a + b && s.call.signer !in b
  {
    a, b := [], [];
    if s.call.RemoveSigner? {
      var k := LastIndex(l.wallets[w].signers, s.call.signer).value;
      a, b := l.wallets[w].signers[..k], l.wallets[w].signers[k + 1..];
    }
  }

  /** Removing a signer undoes adding it. */
  lemma RemovingUndoesAdding(l: Ledger, s: Step, r: Step, w: U64)
    requires Inv(l) && w in l.wallets && Allowed(l, s) && s.call.AddSigner? && s.call.walletId == w
    requires r.call.RemoveSigner? && r.call.walletId == w && r.call.signer == s.call.signer && Allowed(Next(l, s), r)
    ensures w in Next(Next(l, s), r).wallets && Next(Next(l, s), r).wallets[w] == l.wallets[w]
  {
    StepKeepsInv(l, s);
    StepKeepsInv(Next(l, s), r);
    var a, b := EditsAreExact(l, s, w);
    a, b := EditsAreExact(Next(l, s), r, w);
    LastPlace(a, b, l.wallets[w].signers, s.call.signer);
  }

  lemma LastPlace(a: seq<Address>, b: seq<Address>, c: seq<Address>, x: Address)
    requires a + [x] + b == c + [x] && x !in b
    ensures a + b == c
  {
    var whole := c + [x];
    EndOfThree(a, x, b, whole);
    assert whole[|c|] == x;
    assert b == [];
    assert a == whole[..|a|] && c == whole[..|c|];
  }

  lemma EndOfThree(a: seq<Address>, x: Address, b: seq<Address>, whole: seq<Address>)
    requires whole == a + [x] + b
    ensures |whole| == |a| + 1 + |b|
    ensures b != [] ==> whole[|whole| - 1] in b
  {
    assert b != [] ==> whole[|whole| - 1] == b[|b| - 1];
  }

  lemma NewSignerIsEnrolled(l: Ledger, s: Step, w: U64, x: Address)
    requires Inv(l) && w in Next(l, s).wallets && x in Next(l, s).wallets[w].signers
    requires w in l.wallets ==> x !in l.wallets[w].signers
    ensures Apply(l, s.now, s.call).Return? && Enrols(l, s, w, x)
  {
    if IsVote(s.call) {
      VoteShape(l, s);
    } else if s.call.CreateProposal? {
      ProposeShape(l, s);
    }
  }

  /** Every signer of every run was named when the wallet was created or added by someone who signed for it then. */
  lemma {:induction false} SignerHasCause(admin: Address, steps: seq<Step>, w: U64, x: Address) returns (i: nat)
    requires w in Run(Init(admin), steps).wallets && x in Run(Init(admin), steps).wallets[w].signers
    ensures i < |steps| && Accepted(admin, steps, i, steps[i].call)
    ensures Enrols(Run(Init(admin), steps[..i]), steps[i], w, x)
  {
    if steps == [] {
      assert false;
    } else {
      var before, last := steps[..|steps| - 1], steps[|steps| - 1];
      var l := Run(Init(admin), before);
      RunKeepsInv(admin, before);
      if w in l.wallets && x in l.wallets[w].signers {
        i := SignerHasCause(admin, before, w, x);
        AcceptedExtends(admin, steps, i, before[i].call);
        assert before[..i] == steps[..i];
      } else {
        NewSignerIsEnrolled(l, last, w, x);
        i := |steps| - 1;
      }
    }
  }

  lemma NewWalletIsCreated(l: Ledger, s: Step, w: U64)
    requires Inv(l) && w !in l.wallets && w in Next(l, s).wallets
    ensures Apply(l, s.now, s.call).Return? && CreatesWallet(l, s, w, Next(l, s).wallets[w])
    ensures Next(l, s).wallets[w].signers == s.call.signers
  {
    if IsVote(s.call) {
      VoteShape(l, s);
    } else if s.call.CreateProposal? {
      ProposeShape(l, s);
    }
  }

  /** Every wallet has the threshold and timeout of the accepted call that created it. */
  lemma {:induction false} WalletIsAsCreated(admin: Address, steps: seq<Step>, w: U64) returns (i: nat)
    requires w in Run(Init(admin), steps).wallets
    ensures i < |steps| && Accepted(admin, steps, i, steps[i].call)
    ensures CreatesWallet(Run(Init(admin), steps[..i]), steps[i], w, Run(Init(admin), steps).wallets[w])
  {
    if steps == [] {
      assert false;
    } else {
      var before, last := steps[..|steps| - 1], steps[|steps| - 1];
      var l := Run(Init(admin), before);
      RunKeepsInv(admin, before);
      if w in l.wallets {
        i := WalletIsAsCreated(admin, before, w);
        AcceptedExtends(admin, steps, i, before[i].call);
        assert before[..i] == steps[..i];
        StepKeepsInv(l, last);
      } else {
        NewWalletIsCreated(l, last, w);
        i := |steps| - 1;
      }
    }
  }
}
