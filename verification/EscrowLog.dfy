/** The events the escrow publishes: what each accepted call says, and that the log accounts for the money. */
module EscrowLog {
  import opened Primitives
  import opened EscrowLedger
  import opened EscrowSafety
  import opened EscrowProvenance

  /** One creation event for each input, under consecutive ids after `n`. */
  function BatchSaid(n: nat, client: Address, inputs: seq<ProjectInput>): seq<Event>
    requires n + |inputs| <= U64_MAX
  {
    if inputs == [] then []
    else
      var input := inputs[|inputs| - 1];
      BatchSaid(n, client, inputs[..|inputs| - 1])
      + [ProjectCreated(n + |inputs|, client, input.freelancer, input.amount)]
  }

  /** What an allowed call publishes, told from the records before it. */
  function Said(l: Ledger, s: Step): seq<Event>
    requires Allowed(l, s)
  {
    match s.call
    case CreateProject(client, freelancer, amount, _, _, _) =>
      [ProjectCreated(l.projectCount + 1, client, freelancer, amount)]
    case BatchCreateProjects(client, inputs) => BatchSaid(l.projectCount, client, inputs)
    case FundProject(id, _, amount) => [ProjectFunded(id, amount)]
    case SubmitWork(id, _, repo) => [WorkSubmittedFor(id, repo)]
    case ApproveWork(id, _) =>
      var p := l.projects[id];
      [PaymentReleased(id, p.deposited),
       ReceiptIssued(l.receiptCount + 1, id, p.deposited, "XLM", p.client, p.freelancer)]
    case RaiseDispute(id, who) => [ProjectDisputed(id, who)]
    case ResolveDispute(_, _, _) => []
    case CheckDeadline(id) =>
      var p := l.projects[id];
      if p.deadline != 0 && s.now >= p.deadline && p.status !in {Completed, Cancelled, Disputed}
      then [ProjectExpired(id, p.deposited)] else []
    case SetPaused(_, on) => [CircuitPaused(on)]
  }

  lemma {:induction false} EachSays(l: Ledger, now: U64, client: Address, inputs: seq<ProjectInput>)
    requires CreateEach(l, now, client, inputs).Return? && l.projectCount + |inputs| <= U64_MAX
    ensures var out := CreateEach(l, now, client, inputs);
            out.ledger.events == l.events + BatchSaid(l.projectCount, client, inputs)
            && out.ledger.projectCount == l.projectCount + |inputs|
  {
    if inputs == [] {
      assert l.events + [] == l.events;
    } else {
      EachSays(l, now, client, inputs[..|inputs| - 1]);
    }
  }

  lemma BatchSays(l: Ledger, s: Step)
    requires Inv(l) && s.call.BatchCreateProjects?
    ensures Next(l, s).events == l.events + if Allowed(l, s) then Said(l, s) else []
  {
    BatchAllowed(l, s);
    if Allowed(l, s) {
      EachSays(l, s.now, s.call.client, s.call.inputs);
    } else {
      assert l.events + [] == l.events;
    }
  }

  lemma OneSays(l: Ledger, s: Step)
    requires Inv(l) && !s.call.BatchCreateProjects?
    ensures Next(l, s).events == l.events + if Allowed(l, s) then Said(l, s) else []
  {
    SingleAllowed(l, s);
    assert l.events + [] == l.events;
  }

  /** Every call publishes what it is to say if it is allowed, and nothing otherwise. */
  lemma StepSays(l: Ledger, s: Step)
    requires Inv(l)
    ensures Next(l, s).events == l.events + if Allowed(l, s) then Said(l, s) else []
  {
    if s.call.BatchCreateProjects? {
      BatchSays(l, s);
    } else {
      OneSays(l, s);
    }
  }

  // ----- The log and the money -----

  /** The amount that event `e` tells of along `flow`; rulings on disputes publish nothing. */
  function Told(flow: Flow, e: Event): int {
    match e
    case ProjectFunded(_, amount) => if flow == Deposit then amount else 0
    case PaymentReleased(_, amount) => if flow == Release then amount else 0
    case ProjectExpired(_, amount) => if flow == Refund then amount else 0
    case _ => 0
  }

  function ToldTotal(flow: Flow, events: seq<Event>): int {
    if events == [] then 0 else ToldTotal(flow, events[..|events| - 1]) + Told(flow, events[|events| - 1])
  }

  lemma {:induction false} ToldConcat(flow: Flow, a: seq<Event>, b: seq<Event>)
    ensures ToldTotal(flow, a + b) == ToldTotal(flow, a) + ToldTotal(flow, b)
  {
    if b == [] {
      assert a + b == a;
    } else {
      assert (a + b)[..|a + b| - 1] == a + b[..|b| - 1];
      ToldConcat(flow, a, b[..|b| - 1]);
    }
  }

  lemma {:induction false} CreationsTellNothing(flow: Flow, n: nat, client: Address, inputs: seq<ProjectInput>)
    requires n + |inputs| <= U64_MAX
    ensures ToldTotal(flow, BatchSaid(n, client, inputs)) == 0
  {
    if inputs != [] {
      CreationsTellNothing(flow, n, client, inputs[..|inputs| - 1]);
    }
  }

  lemma ToldOne(flow: Flow, e: Event)
    ensures ToldTotal(flow, [e]) == Told(flow, e)
  {
    assert [e][..0] == [];
  }

  lemma ToldTwo(flow: Flow, e: Event, f: Event)
    ensures ToldTotal(flow, [e, f]) == Told(flow, e) + Told(flow, f)
  {
    assert [e, f][..1] == [e];
    ToldOne(flow, e);
  }

  lemma ReleaseIsMoved(flow: Flow, l: Ledger, s: Step)
    requires Inv(l) && Allowed(l, s) && flow != Resolution && s.call.ApproveWork?
    ensures ToldTotal(flow, Said(l, s)) == Moved(flow, l, s)
  {
    ToldTwo(flow, Said(l, s)[0], Said(l, s)[1]);
  }

  lemma OneIsMoved(flow: Flow, l: Ledger, s: Step)
    requires Inv(l) && Allowed(l, s) && flow != Resolution && !s.call.ApproveWork? && !s.call.BatchCreateProjects?
    ensures ToldTotal(flow, Said(l, s)) == Moved(flow, l, s)
  {
    forall e ensures ToldTotal(flow, [e]) == Told(flow, e) {
      ToldOne(flow, e);
    }
  }

  lemma SaidIsMoved(flow: Flow, l: Ledger, s: Step)
    requires Inv(l) && Allowed(l, s) && flow != Resolution
    ensures ToldTotal(flow, Said(l, s)) == Moved(flow, l, s)
  {
    if s.call.BatchCreateProjects? {
      CreationsTellNothing(flow, l.projectCount, s.call.client, s.call.inputs);
    } else if s.call.ApproveWork? {
      ReleaseIsMoved(flow, l, s);
    } else {
      OneIsMoved(flow, l, s);
    }
  }

  lemma StepTells(flow: Flow, l: Ledger, s: Step)
    requires Inv(l) && flow != Resolution
    ensures ToldTotal(flow, Next(l, s).events) == ToldTotal(flow, l.events) + Moved(flow, l, s)
  {
    StepSays(l, s);
    if s.call.BatchCreateProjects? {
      BatchAllowed(l, s);
    } else {
      SingleAllowed(l, s);
    }
    if Allowed(l, s) {
      SaidIsMoved(flow, l, s);
      ToldConcat(flow, l.events, Said(l, s));
    } else {
      assert l.events + [] == l.events;
    }
  }

  /** In every run the published deposits, releases and refunds add up to what was deposited, released and refunded. */
  lemma {:induction false} LogAccounts(flow: Flow, admin: Address, steps: seq<Step>)
    requires flow != Resolution
    ensures ToldTotal(flow, Run(Init(admin), steps).events) == Total(flow, Init(admin), steps, None)
  {
    if steps != [] {
      var before := steps[..|steps| - 1];
      LogAccounts(flow, admin, before);
      RunKeepsInv(admin, before);
      StepTells(flow, Run(Init(admin), before), steps[|steps| - 1]);
    }
  }
}
