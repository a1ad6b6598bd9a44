/** The multisig entry points in the contract's own form: latch, reads, signer scans, writes, release. */
module MultisigContract {
  import opened Primitives
  import opened MultisigLedger

  /** The membership scan every entry point runs over a stored list. */
  method Contains(list: seq<Address>, who: Address) returns (found: bool)
    ensures found <==> who in list
  {
    found := false;
    for i := 0 to |list|
      invariant !found && who !in list[..i]
    {
      if list[i] == who {
        found := true;
        break;
      }
    }
  }

  class Contract {
    const admin: Address
    var wallets: map<U64, Wallet>
    var walletCount: U64
    var proposals: map<U64, Proposal>
    var proposalCount: U64
    var locked: bool
    var paused: bool
    var events: seq<Event>

    function State(): Ledger
      reads this
    {
      Ledger(admin, wallets, walletCount, proposals, proposalCount, locked, paused, events)
    }

    constructor (admin: Address)
      ensures State() == Init(admin)
    {
      this.admin := admin;
      wallets, walletCount, proposals, proposalCount := map[], 0, map[], 0;
      locked, paused, events := false, false, [];
    }

    /** The host's rollback when a call panics. */
    method Revert(snapshot: Ledger)
      requires snapshot.admin == admin
      modifies this
      ensures State() == snapshot
    {
      wallets, walletCount := snapshot.wallets, snapshot.walletCount;
      proposals, proposalCount := snapshot.proposals, snapshot.proposalCount;
      locked, paused, events := snapshot.locked, snapshot.paused, snapshot.events;
    }

    method AcquireLock() returns (ok: bool)
      modifies this`locked
      ensures ok == !old(locked)
      ensures locked
    {
      ok := !locked;
      locked := true;
    }

    method CreateWallet(creator: Address, signers: seq<Address>, threshold: U32, timeout: U64) returns (r: Option<U64>)
      modifies this
      ensures match ApplyCreateWallet(old(State()), Call.CreateWallet(creator, signers, threshold, timeout))
              case Panic => r == None && State() == old(State())
              case Return(l, v) => r.Some? && v == Id(r.value) && State() == l
    {
      var snapshot := State();
      if paused { return None; }
      var ok := AcquireLock();
      if !ok || |signers| < 2 || threshold < 1 || threshold > |signers| || walletCount == U64_MAX {
        Revert(snapshot);
        return None;
      }
      var count := walletCount + 1;
      wallets := wallets[count := Wallet(count, signers, threshold, timeout, true)];
      walletCount := count;
      events := events + [WalletCreated(count, threshold)];
      locked := false;
      return Some(count);
    }

    method AddSigner(authorizer: Address, walletId: U64, newSigner: Address) returns (ok: bool)
      modifies this
      ensures match ApplyAddSigner(old(State()), Call.AddSigner(authorizer, walletId, newSigner))
              case Panic => !ok && State() == old(State())
              case Return(l, _) => ok && State() == l
    {
      var snapshot := State();
      if paused { return false; }
      ok := AcquireLock();
      if !ok || walletId !in wallets { Revert(snapshot); return false; }
      var wallet := wallets[walletId];
      if !wallet.active { Revert(snapshot); return false; }
      var isSigner := Contains(wallet.signers, authorizer);
      if !isSigner { Revert(snapshot); return false; }
      wallet := wallet.(signers := wallet.signers + [newSigner]);
      wallets := wallets[walletId := wallet];
      events := events + [SignerAdded(walletId, newSigner)];
      locked := false;
    }

    method RemoveSigner(authorizer: Address, walletId: U64, signerToRemove: Address) returns (ok: bool)
      modifies this
      ensures match ApplyRemoveSigner(old(State()), Call.RemoveSigner(authorizer, walletId, signerToRemove))
              case Panic => !ok && State() == old(State())
              case Return(l, _) => ok && State() == l
    {
      var snapshot := State();
      if paused { return false; }
      ok := AcquireLock();
      if !ok || walletId !in wallets { Revert(snapshot); return false; }
      var wallet := wallets[walletId];
      if !wallet.active { Revert(snapshot); return false; }
      var isAuthorizerSigner, removeIdx := ScanForRemoval(wallet.signers, authorizer, signerToRemove);
      if !isAuthorizerSigner || removeIdx == None { Revert(snapshot); return false; }
      var newLen := |wallet.signers| - 1;
      if newLen < 2 || wallet.threshold > newLen { Revert(snapshot); return false; }
      var newSigners := WithoutIndex(wallet.signers, removeIdx.value);
      wallet := wallet.(signers := newSigners);
      wallets := wallets[walletId := wallet];
      events := events + [SignerRemoved(walletId, signerToRemove)];
      locked := false;
    }

    /** One pass that notes whether `authorizer` signs and where `target` last occurs. */
    method ScanForRemoval(signers: seq<Address>, authorizer: Address, target: Address)
      returns (isSigner: bool, idx: Option<nat>)
      ensures isSigner <==> authorizer in signers
      ensures idx == LastIndex(signers, target)
    {
      isSigner, idx := false, None;
      for i := 0 to |signers|
        invariant isSigner <==> authorizer in signers[..i]
        invariant idx == LastIndex(signers[..i], target)
      {
        assert signers[..i + 1][..i] == signers[..i];
        if signers[i] == authorizer {
          isSigner := true;
        }
        if signers[i] == target {
          idx := Some(i);
        }
      }
      assert signers[..|signers|] == signers;
    }

    /** Rebuilds a list without position `k`. */
    method WithoutIndex(list: seq<Address>, k: nat) returns (rest: seq<Address>)
      requires k < |list|
      ensures rest == list[..k] + list[k + 1..]
    {
      rest := [];
      for i := 0 to |list|
        invariant rest == if i <= k then list[..i] else list[..k] + list[k + 1..i]
      {
        if i != k {
          rest := rest + [list[i]];
        }
      }
      assert list[k + 1..|list|] == list[k + 1..];
    }

    method CreateProposal(now: U64, proposer: Address, walletId: U64, amount: I128, recipient: Address,
                          description: string)
      returns (r: Option<U64>)
      modifies this
      ensures match ApplyCreateProposal(old(State()), now,
                                        Call.CreateProposal(proposer, walletId, amount, recipient, description))
              case Panic => r == None && State() == old(State())
              case Return(l, v) => r.Some? && v == Id(r.value) && State() == l
    {
      var snapshot := State();
      if paused { return None; }
      var ok := AcquireLock();
      if !ok || walletId !in wallets { Revert(snapshot); return None; }
      var wallet := wallets[walletId];
      if !wallet.active || amount <= 0 { Revert(snapshot); return None; }
      var isSigner := Contains(wallet.signers, proposer);
      if !isSigner || proposalCount == U64_MAX { Revert(snapshot); return None; }
      var count := proposalCount + 1;
      var expiresAt: U64 := 0;
      if wallet.timeout > 0 {
        if now + wallet.timeout > U64_MAX { Revert(snapshot); return None; }
        expiresAt := now + wallet.timeout;
      }
      proposals := proposals[count := Proposal(count, walletId, amount, recipient, description, Pending, [proposer], [],
                                               now, expiresAt)];
      proposalCount := count;
      events := events + [Proposed(count, walletId, amount, recipient)];
      locked := false;
      return Some(count);
    }

    method Approve(now: U64, signer: Address, proposalId: U64) returns (ok: bool)
      modifies this
      ensures match ApplyApprove(old(State()), now, Call.Approve(signer, proposalId))
              case Panic => !ok && State() == old(State())
              case Return(l, _) => ok && State() == l
    {
      var snapshot := State();
      if paused { return false; }
      ok := AcquireLock();
      if !ok || proposalId !in proposals { Revert(snapshot); return false; }
      var proposal := proposals[proposalId];
      if proposal.status != Pending || proposal.walletId !in wallets { Revert(snapshot); return false; }
      var wallet := wallets[proposal.walletId];
      if proposal.expiresAt > 0 && now >= proposal.expiresAt {
        proposal := proposal.(status := Expired);
        proposals := proposals[proposalId := proposal];
        locked := false;
        Revert(snapshot);
        return false;
      }
      var isSigner := Contains(wallet.signers, signer);
      if !isSigner { Revert(snapshot); return false; }
      var already := Contains(proposal.approvals, signer);
      if already {
        locked := false;
        return true;
      }
      proposal := proposal.(approvals := proposal.approvals + [signer]);
      if |proposal.approvals| >= wallet.threshold {
        proposal := proposal.(status := Executed);
        events := events + [ExecutedPayment(proposalId, proposal.walletId, proposal.amount, proposal.recipient)];
      }
      proposals := proposals[proposalId := proposal];
      locked := false;
      assert snapshot.events + [] == snapshot.events;
    }

    method Reject(signer: Address, proposalId: U64) returns (ok: bool)
      modifies this
      ensures match ApplyReject(old(State()), Call.Reject(signer, proposalId))
              case Panic => !ok && State() == old(State())
              case Return(l, _) => ok && State() == l
    {
      var snapshot := State();
      if paused { return false; }
      ok := AcquireLock();
      if !ok || proposalId !in proposals { Revert(snapshot); return false; }
      var proposal := proposals[proposalId];
      if proposal.status != Pending || proposal.walletId !in wallets { Revert(snapshot); return false; }
      var wallet := wallets[proposal.walletId];
      var isSigner := Contains(wallet.signers, signer);
      if !isSigner { Revert(snapshot); return false; }
      var already := Contains(proposal.rejections, signer);
      if already {
        locked := false;
        return true;
      }
      proposal := proposal.(rejections := proposal.rejections + [signer]);
      if wallet.threshold > |wallet.signers| { Revert(snapshot); return false; }
      var blocking := |wallet.signers| - wallet.threshold + 1;
      if |proposal.rejections| >= blocking {
        proposal := proposal.(status := Rejected);
        events := events + [RejectedProposal(proposalId, proposal.walletId)];
      }
      proposals := proposals[proposalId := proposal];
      locked := false;
      assert snapshot.events + [] == snapshot.events;
    }

    method Cancel(signer: Address, proposalId: U64) returns (ok: bool)
      modifies this
      ensures match ApplyCancel(old(State()), Call.Cancel(signer, proposalId))
              case Panic => !ok && State() == old(State())
              case Return(l, _) => ok && State() == l
    {
      var snapshot := State();
      if paused { return false; }
      ok := AcquireLock();
      if !ok || proposalId !in proposals { Revert(snapshot); return false; }
      var proposal := proposals[proposalId];
      if proposal.status != Pending || proposal.walletId !in wallets { Revert(snapshot); return false; }
      var isSigner := Contains(wallets[proposal.walletId].signers, signer);
      if !isSigner { Revert(snapshot); return false; }
      proposal := proposal.(status := Cancelled);
      proposals := proposals[proposalId := proposal];
      events := events + [CancelledProposal(proposalId, proposal.walletId)];
      locked := false;
    }

    method CheckExpiry(now: U64, proposalId: U64) returns (r: Option<bool>)
      modifies this
      ensures match ApplyCheckExpiry(old(State()), now, Call.CheckExpiry(proposalId))
              case Panic => r == None && State() == old(State())
              case Return(l, v) => r.Some? && v == Flag(r.value) && State() == l
    {
      var snapshot := State();
      var ok := AcquireLock();
      if !ok || proposalId !in proposals { Revert(snapshot); return None; }
      var proposal := proposals[proposalId];
      if proposal.status != Pending || proposal.expiresAt == 0 { locked := false; return Some(false); }
      if now < proposal.expiresAt { locked := false; return Some(false); }
      proposal := proposal.(status := Expired);
      proposals := proposals[proposalId := proposal];
      events := events + [ExpiredProposal(proposalId, proposal.walletId)];
      locked := false;
      return Some(true);
    }

    /** `pause` and `unpause`. */
    method SetPaused(caller: Address, on: bool) returns (ok: bool)
      modifies this
      ensures match ApplyPause(old(State()), Call.SetPaused(caller, on))
              case Panic => !ok && State() == old(State())
              case Return(l, _) => ok && State() == l
    {
      var snapshot := State();
      if caller != admin { return false; }
      ok := AcquireLock();
      if !ok { Revert(snapshot); return false; }
      paused := on;
      events := events + [CircuitPaused(on)];
      locked := false;
    }
  }
}
