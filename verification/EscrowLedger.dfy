/**
 * The project escrow of the Soroban contract as a transition system over its storage.
 * `Apply` says what one entry point does; a panic makes the host discard every write
 * of the call. The imperative form that is proved equal to it is in EscrowContract.dfy.
 */
module EscrowLedger {
  import opened Primitives

  datatype Status =
    | Created | Funded | InProgress | WorkSubmitted | Verified | Completed | Disputed | Cancelled

  datatype Project = Project(
    id: U64, client: Address, freelancer: Address, amount: I128, deposited: I128, status: Status,
    githubRepo: string, description: string, createdAt: U64, deadline: U64)

  datatype Receipt = Receipt(
    id: U64, projectId: U64, amount: I128, currency: string, sender: Address, recipient: Address, timestamp: U64)

  datatype ProjectInput = ProjectInput(freelancer: Address, amount: I128, description: string, githubRepo: string)

  datatype Event =
    | ProjectCreated(id: U64, client: Address, freelancer: Address, amount: I128)
    | ProjectFunded(id: U64, amount: I128)
    | WorkSubmittedFor(id: U64, githubRepo: string)
    | PaymentReleased(id: U64, amount: I128)
    | ReceiptIssued(receiptId: U64, id: U64, amount: I128, currency: string, sender: Address, recipient: Address)
    | ProjectDisputed(id: U64, caller: Address)
    | ProjectExpired(id: U64, amount: I128)
    | CircuitPaused(on: bool)

  /** Everything the contract keeps in storage, and the events published so far. */
  datatype Ledger = Ledger(
    admin: Address,
    projects: map<U64, Project>, projectCount: U64,
    receipts: map<U64, Receipt>, receiptCount: U64,
    locked: bool, paused: bool,
    events: seq<Event>)

  datatype Call =
    | CreateProject(client: Address, freelancer: Address, amount: I128, description: string, githubRepo: string,
                    deadline: U64)
    | BatchCreateProjects(client: Address, inputs: seq<ProjectInput>)
    | FundProject(id: U64, client: Address, amount: I128)
    | SubmitWork(id: U64, freelancer: Address, githubRepo: string)
    | ApproveWork(id: U64, client: Address)
    | RaiseDispute(id: U64, caller: Address)
    | ResolveDispute(id: U64, admin: Address, releaseToFreelancer: bool)
    | CheckDeadline(id: U64)
    | SetPaused(admin: Address, on: bool)

  datatype Value = Unit | Id(id: U64) | Ids(ids: seq<U64>) | Flag(flag: bool)

  datatype Outcome = Panic | Return(ledger: Ledger, value: Value)

  function Init(admin: Address): Ledger {
    Ledger(admin, map[], 0, map[], 0, false, false, [])
  }

  predicate Open(l: Ledger) {
    !l.paused && !l.locked
  }

  /** Overwrites one stored project and publishes `e`. */
  function Put(l: Ledger, id: U64, p: Project, e: seq<Event>): Ledger {
    l.(projects := l.projects[id := p], events := l.events + e)
  }

  function ApplyCreate(l: Ledger, now: U64, c: Call): Outcome
    requires c.CreateProject?
  {
    if !Open(l) || l.projectCount == U64_MAX then Panic
    else
      var id := l.projectCount + 1;
      var p := Project(id, c.client, c.freelancer, c.amount, 0, Created, c.githubRepo, c.description, now, c.deadline);
      Return(Put(l, id, p, [ProjectCreated(id, c.client, c.freelancer, c.amount)]).(projectCount := id), Id(id))
  }

  function AsCreate(client: Address, input: ProjectInput): Call {
    CreateProject(client, input.freelancer, input.amount, input.description, input.githubRepo, 0)
  }

  /** One `create_project` call after another with deadline 0, stopping at the first panic. */
  function CreateEach(l: Ledger, now: U64, client: Address, inputs: seq<ProjectInput>): Outcome {
    if inputs == [] then Return(l, Ids([]))
    else
      match CreateEach(l, now, client, inputs[..|inputs| - 1])
      case Return(l1, Ids(ids)) =>
        (match ApplyCreate(l1, now, AsCreate(client, inputs[|inputs| - 1]))
         case Return(l2, Id(id)) => Return(l2, Ids(ids + [id]))
         case _ => Panic)
      case _ => Panic
  }

  function ApplyBatch(l: Ledger, now: U64, c: Call): Outcome
    requires c.BatchCreateProjects?
  {
    if !Open(l) then Panic else CreateEach(l, now, c.client, c.inputs)
  }

  function ApplyFund(l: Ledger, c: Call): Outcome
    requires c.FundProject?
  {
    if !Open(l) || c.id !in l.projects then Panic
    else
      var p := l.projects[c.id];
      if p.client != c.client || p.status != Created || c.amount <= 0 || p.deposited + c.amount > I128_MAX then Panic
      else
        var total := p.deposited + c.amount;
        var p' := p.(deposited := total, status := if total >= p.amount then Funded else Created);
        Return(Put(l, c.id, p', [ProjectFunded(c.id, c.amount)]), Unit)
  }

  function ApplySubmit(l: Ledger, c: Call): Outcome
    requires c.SubmitWork?
  {
    if !Open(l) || c.id !in l.projects then Panic
    else
      var p := l.projects[c.id];
      if p.freelancer != c.freelancer || (p.status != Funded && p.status != InProgress) then Panic
      else
        var p' := p.(githubRepo := c.githubRepo, status := WorkSubmitted);
        Return(Put(l, c.id, p', [WorkSubmittedFor(c.id, c.githubRepo)]), Unit)
  }

  function ApplyApprove(l: Ledger, now: U64, c: Call): Outcome
    requires c.ApproveWork?
  {
    if !Open(l) || c.id !in l.projects then Panic
    else
      var p := l.projects[c.id];
      if p.client != c.client || (p.status != WorkSubmitted && p.status != Verified) || l.receiptCount == U64_MAX then
        Panic
      else
        var rid := l.receiptCount + 1;
        var r := Receipt(rid, c.id, p.deposited, "XLM", p.client, p.freelancer, now);
        var l1 := Put(l, c.id, p.(status := Completed, deposited := 0),
                      [PaymentReleased(c.id, p.deposited),
                       ReceiptIssued(rid, c.id, p.deposited, "XLM", p.client, p.freelancer)]);
        Return(l1.(receipts := l.receipts[rid := r], receiptCount := rid), Unit)
  }

  function ApplyDispute(l: Ledger, c: Call): Outcome
    requires c.RaiseDispute?
  {
    if !Open(l) || c.id !in l.projects then Panic
    else
      var p := l.projects[c.id];
      if c.caller != p.client && c.caller != p.freelancer then Panic
      else Return(Put(l, c.id, p.(status := Disputed), [ProjectDisputed(c.id, c.caller)]), Unit)
  }

  function ApplyResolve(l: Ledger, c: Call): Outcome
    requires c.ResolveDispute?
  {
    if !Open(l) || c.admin != l.admin || c.id !in l.projects || l.projects[c.id].status != Disputed then Panic
    else
      var verdict := if c.releaseToFreelancer then Completed else Cancelled;
      Return(Put(l, c.id, l.projects[c.id].(deposited := 0, status := verdict), []), Unit)
  }

  /** Callable while paused, by anyone. */
  function ApplyDeadline(l: Ledger, now: U64, c: Call): Outcome
    requires c.CheckDeadline?
  {
    if l.locked || c.id !in l.projects then Panic
    else
      var p := l.projects[c.id];
      if p.deadline == 0 || p.status in {Completed, Cancelled, Disputed} || now < p.deadline then
        Return(l, Flag(false))
      else
        Return(Put(l, c.id, p.(deposited := 0, status := Cancelled), [ProjectExpired(c.id, p.deposited)]), Flag(true))
  }

  function ApplyPause(l: Ledger, c: Call): Outcome
    requires c.SetPaused?
  {
    if c.admin != l.admin || l.locked then Panic
    else Return(l.(paused := c.on, events := l.events + [CircuitPaused(c.on)]), Unit)
  }

  function Apply(l: Ledger, now: U64, c: Call): Outcome {
    match c
    case CreateProject(_, _, _, _, _, _) => ApplyCreate(l, now, c)
    case BatchCreateProjects(_, _) => ApplyBatch(l, now, c)
    case FundProject(_, _, _) => ApplyFund(l, c)
    case SubmitWork(_, _, _) => ApplySubmit(l, c)
    case ApproveWork(_, _) => ApplyApprove(l, now, c)
    case RaiseDispute(_, _) => ApplyDispute(l, c)
    case ResolveDispute(_, _, _) => ApplyResolve(l, c)
    case CheckDeadline(_) => ApplyDeadline(l, now, c)
    case SetPaused(_, _) => ApplyPause(l, c)
  }

  /** A call and the ledger timestamp it runs at. */
  datatype Step = Step(now: U64, call: Call)

  /** A panicking call leaves storage as it was. */
  function Next(l: Ledger, s: Step): Ledger {
    match Apply(l, s.now, s.call)
    case Panic => l
    case Return(l', _) => l'
  }

  function Run(l: Ledger, steps: seq<Step>): Ledger {
    if steps == [] then l else Next(Run(l, steps[..|steps| - 1]), steps[|steps| - 1])
  }

  /** A fold that panics on a prefix panics on the whole. */
  lemma {:induction false} CreateEachStops(l: Ledger, now: U64, client: Address, inputs: seq<ProjectInput>, n: nat)
    requires n <= |inputs|
    requires CreateEach(l, now, client, inputs[..n]).Panic?
    ensures CreateEach(l, now, client, inputs).Panic?
    decreases |inputs|
  {
    if n == |inputs| {
      assert inputs[..n] == inputs;
    } else {
      assert inputs[..|inputs| - 1][..n] == inputs[..n];
      CreateEachStops(l, now, client, inputs[..|inputs| - 1], n);
    }
  }
}
