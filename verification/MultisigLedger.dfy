/** The multisig wallets and proposals of the Soroban contract as a transition system over its storage. */
module MultisigLedger {
  import opened Primitives

  datatype ProposalStatus = Pending | Executed | Rejected | Expired | Cancelled

  datatype Wallet = Wallet(id: U64, signers: seq<Address>, threshold: U32, timeout: U64, active: bool)

  datatype Proposal = Proposal(
    id: U64, walletId: U64, amount: I128, recipient: Address, description: string, status: ProposalStatus,
    approvals: seq<Address>, rejections: seq<Address>, createdAt: U64, expiresAt: U64)

  datatype Event =
    | WalletCreated(walletId: U64, threshold: U32)
    | SignerAdded(walletId: U64, signer: Address)
    | SignerRemoved(walletId: U64, signer: Address)
    | Proposed(proposalId: U64, walletId: U64, amount: I128, recipient: Address)
    | ExecutedPayment(proposalId: U64, walletId: U64, amount: I128, recipient: Address)
    | RejectedProposal(proposalId: U64, walletId: U64)
    | CancelledProposal(proposalId: U64, walletId: U64)
    | ExpiredProposal(proposalId: U64, walletId: U64)
    | CircuitPaused(on: bool)

  datatype Ledger = Ledger(
    admin: Address,
    wallets: map<U64, Wallet>, walletCount: U64,
    proposals: map<U64, Proposal>, proposalCount: U64,
    locked: bool, paused: bool,
    events: seq<Event>)

  datatype Call =
    | CreateWallet(creator: Address, signers: seq<Address>, threshold: U32, timeout: U64)
    | AddSigner(authorizer: Address, walletId: U64, signer: Address)
    | RemoveSigner(authorizer: Address, walletId: U64, signer: Address)
    | CreateProposal(proposer: Address, walletId: U64, amount: I128, recipient: Address, description: string)
    | Approve(caller: Address, proposalId: U64)
    | Reject(caller: Address, proposalId: U64)
    | Cancel(caller: Address, proposalId: U64)
    | CheckExpiry(proposalId: U64)
    | SetPaused(admin: Address, on: bool)

  datatype Value = Unit | Id(id: U64) | Flag(flag: bool)

  datatype Outcome = Panic | Return(ledger: Ledger, value: Value)

  function Init(admin: Address): Ledger {
    Ledger(admin, map[], 0, map[], 0, false, false, [])
  }

  predicate Open(l: Ledger) {
    !l.paused && !l.locked
  }

  function ApplyCreateWallet(l: Ledger, c: Call): Outcome
    requires c.CreateWallet?
  {
    if !Open(l) || |c.signers| < 2 || c.threshold < 1 || c.threshold > |c.signers| || l.walletCount == U64_MAX then
      Panic
    else
      var id := l.walletCount + 1;
      var w := Wallet(id, c.signers, c.threshold, c.timeout, true);
      Return(l.(wallets := l.wallets[id := w], walletCount := id,
                events := l.events + [WalletCreated(id, c.threshold)]), Id(id))
  }

  /** Signers are appended without a duplicate check. */
  function ApplyAddSigner(l: Ledger, c: Call): Outcome
    requires c.AddSigner?
  {
    if !Open(l) || c.walletId !in l.wallets then Panic
    else
      var w := l.wallets[c.walletId];
      if !w.active || c.authorizer !in w.signers then Panic
      else
        Return(l.(wallets := l.wallets[c.walletId := w.(signers := w.signers + [c.signer])],
                  events := l.events + [SignerAdded(c.walletId, c.signer)]), Unit)
  }

  /** The last position of `x` in `s`. */
  function LastIndex(s: seq<Address>, x: Address): (k: Option<nat>)
    ensures k == None <==> x !in s
    ensures k.Some? ==> k.value < |s| && s[k.value] == x && x !in s[k.value + 1..]
  {
    if s == [] then None
    else if s[|s| - 1] == x then Some(|s| - 1)
    else LastIndex(s[..|s| - 1], x)
  }

  function ApplyRemoveSigner(l: Ledger, c: Call): Outcome
    requires c.RemoveSigner?
  {
    if !Open(l) || c.walletId !in l.wallets then Panic
    else
      var w := l.wallets[c.walletId];
      var k := LastIndex(w.signers, c.signer);
      if !w.active || c.authorizer !in w.signers || k == None || |w.signers| - 1 < 2
         || w.threshold > |w.signers| - 1 then Panic
      else
        var rest := w.signers[..k.value] + w.signers[k.value + 1..];
        Return(l.(wallets := l.wallets[c.walletId := w.(signers := rest)],
                  events := l.events + [SignerRemoved(c.walletId, c.signer)]), Unit)
  }

  function ApplyCreateProposal(l: Ledger, now: U64, c: Call): Outcome
    requires c.CreateProposal?
  {
    if !Open(l) || c.walletId !in l.wallets || l.proposalCount == U64_MAX then Panic
    else
      var w := l.wallets[c.walletId];
      if !w.active || c.amount <= 0 || c.proposer !in w.signers || (w.timeout > 0 && now + w.timeout > U64_MAX) then
        Panic
      else
        var id := l.proposalCount + 1;
        var p := Proposal(id, c.walletId, c.amount, c.recipient, c.description, Pending, [c.proposer], [], now,
                          if w.timeout > 0 then now + w.timeout else 0);
        Return(l.(proposals := l.proposals[id := p], proposalCount := id,
                  events := l.events + [Proposed(id, c.walletId, c.amount, c.recipient)]), Id(id))
  }

  /** The proposal is stored and pending and its wallet exists. */
  predicate Votable(l: Ledger, id: U64) {
    id in l.proposals && l.proposals[id].status == Pending && l.proposals[id].walletId in l.wallets
  }

  function Put(l: Ledger, id: U64, p: Proposal, e: seq<Event>): Ledger {
    l.(proposals := l.proposals[id := p], events := l.events + e)
  }

  /** An approval at or after the expiry panics, so the expiry mark written before the panic does not survive. */
  function ApplyApprove(l: Ledger, now: U64, c: Call): Outcome
    requires c.Approve?
  {
    if !Open(l) || !Votable(l, c.proposalId) then Panic
    else
      var p := l.proposals[c.proposalId];
      var w := l.wallets[p.walletId];
      if (p.expiresAt > 0 && now >= p.expiresAt) || c.caller !in w.signers then Panic
      else if c.caller in p.approvals then Return(l, Unit)
      else
        var p' := p.(approvals := p.approvals + [c.caller]);
        if |p'.approvals| >= w.threshold then
          Return(Put(l, c.proposalId, p'.(status := Executed),
                     [ExecutedPayment(c.proposalId, p.walletId, p.amount, p.recipient)]), Unit)
        else Return(Put(l, c.proposalId, p', []), Unit)
  }

  function ApplyReject(l: Ledger, c: Call): Outcome
    requires c.Reject?
  {
    if !Open(l) || !Votable(l, c.proposalId) then Panic
    else
      var p := l.proposals[c.proposalId];
      var w := l.wallets[p.walletId];
      if c.caller !in w.signers then Panic
      else if c.caller in p.rejections then Return(l, Unit)
      else if w.threshold > |w.signers| then Panic
      else
        var p' := p.(rejections := p.rejections + [c.caller]);
        if |p'.rejections| >= |w.signers| - w.threshold + 1 then
          Return(Put(l, c.proposalId, p'.(status := Rejected), [RejectedProposal(c.proposalId, p.walletId)]), Unit)
        else Return(Put(l, c.proposalId, p', []), Unit)
  }

  function ApplyCancel(l: Ledger, c: Call): Outcome
    requires c.Cancel?
  {
    if !Open(l) || !Votable(l, c.proposalId) || c.caller !in l.wallets[l.proposals[c.proposalId].walletId].signers then
      Panic
    else
      var p := l.proposals[c.proposalId];
      Return(Put(l, c.proposalId, p.(status := Cancelled), [CancelledProposal(c.proposalId, p.walletId)]), Unit)
  }

  /** Callable while paused, by anyone. */
  function ApplyCheckExpiry(l: Ledger, now: U64, c: Call): Outcome
    requires c.CheckExpiry?
  {
    if l.locked || c.proposalId !in l.proposals then Panic
    else
      var p := l.proposals[c.proposalId];
      if p.status != Pending || p.expiresAt == 0 || now < p.expiresAt then Return(l, Flag(false))
      else Return(Put(l, c.proposalId, p.(status := Expired), [ExpiredProposal(c.proposalId, p.walletId)]), Flag(true))
  }

  function ApplyPause(l: Ledger, c: Call): Outcome
    requires c.SetPaused?
  {
    if c.admin != l.admin || l.locked then Panic
    else Return(l.(paused := c.on, events := l.events + [CircuitPaused(c.on)]), Unit)
  }

  function Apply(l: Ledger, now: U64, c: Call): Outcome {
    match c
    case CreateWallet(_, _, _, _) => ApplyCreateWallet(l, c)
    case AddSigner(_, _, _) => ApplyAddSigner(l, c)
    case RemoveSigner(_, _, _) => ApplyRemoveSigner(l, c)
    case CreateProposal(_, _, _, _, _) => ApplyCreateProposal(l, now, c)
    case Approve(_, _) => ApplyApprove(l, now, c)
    case Reject(_, _) => ApplyReject(l, c)
    case Cancel(_, _) => ApplyCancel(l, c)
    case CheckExpiry(_) => ApplyCheckExpiry(l, now, c)
    case SetPaused(_, _) => ApplyPause(l, c)
  }

  datatype Step = Step(now: U64, call: Call)

  /** A panicking call leaves storage as it was. */
  function Next(l: Ledger, s: Step): Ledger {
    match Apply(l, s.now, s.call)
    case Panic => l
    case Return(l', _) => l'
  }

  function Run(l: Ledger, steps: seq<Step>): Ledger {
    if steps == [] then l else Next(Run(l, steps[..|steps| - 1]), steps[|steps| - 1])
  }
}
