/** The escrow entry points in the contract's own form: latch, reads, checks, writes, release. */
module EscrowContract {
  import opened Primitives
  import opened EscrowLedger

  class Contract {
    const admin: Address
    var projects: map<U64, Project>
    var projectCount: U64
    var receipts: map<U64, Receipt>
    var receiptCount: U64
    var locked: bool
    var paused: bool
    var events: seq<Event>

    function State(): Ledger
      reads this
    {
      Ledger(admin, projects, projectCount, receipts, receiptCount, locked, paused, events)
    }

    constructor (admin: Address)
      ensures State() == Init(admin)
    {
      this.admin := admin;
      projects, projectCount, receipts, receiptCount := map[], 0, map[], 0;
      locked, paused, events := false, false, [];
    }

    /** The host's rollback when a call panics. */
    method Revert(snapshot: Ledger)
      requires snapshot.admin == admin
      modifies this
      ensures State() == snapshot
    {
      projects, projectCount := snapshot.projects, snapshot.projectCount;
      receipts, receiptCount := snapshot.receipts, snapshot.receiptCount;
      locked, paused, events := snapshot.locked, snapshot.paused, snapshot.events;
    }

    method AcquireLock() returns (ok: bool)
      modifies this`locked
      ensures ok == !old(locked)
      ensures locked
    {
      ok := !locked;
      locked := true;
    }

    method CreateProject(now: U64, client: Address, freelancer: Address, amount: I128, description: string,
                         githubRepo: string, deadline: U64)
      returns (r: Option<U64>)
      modifies this
      ensures match ApplyCreate(old(State()), now,
                                Call.CreateProject(client, freelancer, amount, description, githubRepo, deadline))
              case Panic => r == None && State() == old(State())
              case Return(l, v) => r.Some? && v == Id(r.value) && State() == l
    {
      var snapshot := State();
      if paused { return None; }
      var ok := AcquireLock();
      if !ok || projectCount == U64_MAX { Revert(snapshot); return None; }
      var count := projectCount + 1;
      var project := Project(count, client, freelancer, amount, 0, Created, githubRepo, description, now, deadline);
      projects := projects[count := project];
      projectCount := count;
      events := events + [ProjectCreated(count, client, freelancer, amount)];
      locked := false;
      return Some(count);
    }

    method BatchCreateProjects(now: U64, client: Address, inputs: seq<ProjectInput>) returns (r: Option<seq<U64>>)
      modifies this
      ensures match ApplyBatch(old(State()), now, Call.BatchCreateProjects(client, inputs))
              case Panic => r == None && State() == old(State())
              case Return(l, v) => r.Some? && v == Ids(r.value) && State() == l
    {
      var snapshot := State();
      if paused { return None; }
      var ok := AcquireLock();
      if !ok { Revert(snapshot); return None; }
      var count := projectCount;
      var ids := [];
      for i := 0 to |inputs|
        invariant CreateEach(snapshot, now, client, inputs[..i])
                  == Return(State().(locked := false, projectCount := count), Ids(ids))
      {
        assert inputs[..i + 1][..i] == inputs[..i];
        if count == U64_MAX {
          CreateEachStops(snapshot, now, client, inputs, i + 1);
          Revert(snapshot);
          return None;
        }
        var input := inputs[i];
        count := count + 1;
        var project := Project(count, client, input.freelancer, input.amount, 0, Created, input.githubRepo,
                               input.description, now, 0);
        projects := projects[count := project];
        events := events + [ProjectCreated(count, client, input.freelancer, input.amount)];
        ids := ids + [count];
      }
      assert inputs[..|inputs|] == inputs;
      projectCount := count;
      locked := false;
      return Some(ids);
    }

    method FundProject(projectId: U64, client: Address, amount: I128) returns (ok: bool)
      modifies this
      ensures match ApplyFund(old(State()), Call.FundProject(projectId, client, amount))
              case Panic => !ok && State() == old(State())
              case Return(l, _) => ok && State() == l
    {
      var snapshot := State();
      if paused { return false; }
      ok := AcquireLock();
      if !ok || projectId !in projects { Revert(snapshot); return false; }
      var project := projects[projectId];
      if project.client != client || project.status != Created || amount <= 0
         || project.deposited + amount > I128_MAX {
        Revert(snapshot);
        return false;
      }
      project := project.(deposited := project.deposited + amount);
      if project.deposited >= project.amount {
        project := project.(status := Funded);
      }
      projects := projects[projectId := project];
      events := events + [ProjectFunded(projectId, amount)];
      locked := false;
    }

    method SubmitWork(projectId: U64, freelancer: Address, githubRepo: string) returns (ok: bool)
      modifies this
      ensures match ApplySubmit(old(State()), Call.SubmitWork(projectId, freelancer, githubRepo))
              case Panic => !ok && State() == old(State())
              case Return(l, _) => ok && State() == l
    {
      var snapshot := State();
      if paused { return false; }
      ok := AcquireLock();
      if !ok || projectId !in projects { Revert(snapshot); return false; }
      var project := projects[projectId];
      if project.freelancer != freelancer || !(project.status == Funded || project.status == InProgress) {
        Revert(snapshot);
        return false;
      }
      project := project.(githubRepo := githubRepo);
      project := project.(status := WorkSubmitted);
      projects := projects[projectId := project];
      events := events + [WorkSubmittedFor(projectId, githubRepo)];
      locked := false;
    }

    method ApproveWork(now: U64, projectId: U64, client: Address) returns (ok: bool)
      modifies this
      ensures match ApplyApprove(old(State()), now, Call.ApproveWork(projectId, client))
              case Panic => !ok && State() == old(State())
              case Return(l, _) => ok && State() == l
    {
      var snapshot := State();
      if paused { return false; }
      ok := AcquireLock();
      if !ok || projectId !in projects { Revert(snapshot); return false; }
      var project := projects[projectId];
      if project.client != client || !(project.status == WorkSubmitted || project.status == Verified) {
        Revert(snapshot);
        return false;
      }
      var amountReleased := project.deposited;
      project := project.(status := Completed, deposited := 0);
      projects := projects[projectId := project];
      events := events + [PaymentReleased(projectId, amountReleased)];
      var receipt := RecordReceipt(now, projectId, amountReleased, "XLM", project.client, project.freelancer);
      if receipt == None { Revert(snapshot); return false; }
      locked := false;
      assert snapshot.events + [PaymentReleased(projectId, amountReleased)] + [events[|events| - 1]]
             == snapshot.events + [PaymentReleased(projectId, amountReleased), events[|events| - 1]];
    }

    method RecordReceipt(now: U64, projectId: U64, amount: I128, currency: string, sender: Address,
                         recipient: Address)
      returns (r: Option<U64>)
      modifies this`receipts, this`receiptCount, this`events
      ensures r == None <==> old(receiptCount) == U64_MAX
      ensures r.Some? ==>
                && r.value == receiptCount == old(receiptCount) + 1
                && receipts == old(receipts)[r.value := Receipt(r.value, projectId, amount, currency, sender,
                                                                recipient, now)]
                && events == old(events) + [ReceiptIssued(r.value, projectId, amount, currency, sender, recipient)]
    {
      if receiptCount == U64_MAX { return None; }
      var count := receiptCount + 1;
      receipts := receipts[count := Receipt(count, projectId, amount, currency, sender, recipient, now)];
      receiptCount := count;
      events := events + [ReceiptIssued(count, projectId, amount, currency, sender, recipient)];
      return Some(count);
    }

    method RaiseDispute(projectId: U64, caller: Address) returns (ok: bool)
      modifies this
      ensures match ApplyDispute(old(State()), Call.RaiseDispute(projectId, caller))
              case Panic => !ok && State() == old(State())
              case Return(l, _) => ok && State() == l
    {
      var snapshot := State();
      if paused { return false; }
      ok := AcquireLock();
      if !ok || projectId !in projects { Revert(snapshot); return false; }
      var project := projects[projectId];
      if !(caller == project.client || caller == project.freelancer) { Revert(snapshot); return false; }
      project := project.(status := Disputed);
      projects := projects[projectId := project];
      events := events + [ProjectDisputed(projectId, caller)];
      locked := false;
    }

    method ResolveDispute(projectId: U64, caller: Address, releaseToFreelancer: bool) returns (ok: bool)
      modifies this
      ensures match ApplyResolve(old(State()), Call.ResolveDispute(projectId, caller, releaseToFreelancer))
              case Panic => !ok && State() == old(State())
              case Return(l, _) => ok && State() == l
    {
      var snapshot := State();
      if paused { return false; }
      ok := AcquireLock();
      if !ok || caller != admin || projectId !in projects { Revert(snapshot); return false; }
      var project := projects[projectId];
      if project.status != Disputed { Revert(snapshot); return false; }
      project := project.(deposited := 0);
      if releaseToFreelancer {
        project := project.(status := Completed);
      } else {
        project := project.(status := Cancelled);
      }
      projects := projects[projectId := project];
      locked := false;
      assert events + [] == events;
    }

    method CheckDeadline(now: U64, projectId: U64) returns (r: Option<bool>)
      modifies this
      ensures match ApplyDeadline(old(State()), now, Call.CheckDeadline(projectId))
              case Panic => r == None && State() == old(State())
              case Return(l, v) => r.Some? && v == Flag(r.value) && State() == l
    {
      var snapshot := State();
      var ok := AcquireLock();
      if !ok || projectId !in projects { Revert(snapshot); return None; }
      var project := projects[projectId];
      if project.deadline == 0 { locked := false; return Some(false); }
      if project.status == Completed || project.status == Cancelled || project.status == Disputed {
        locked := false;
        return Some(false);
      }
      if now < project.deadline { locked := false; return Some(false); }
      var refundAmount := project.deposited;
      project := project.(deposited := 0);
      project := project.(status := Cancelled);
      projects := projects[projectId := project];
      events := events + [ProjectExpired(projectId, refundAmount)];
      locked := false;
      return Some(true);
    }

    /** `pause` and `unpause`. */
    method SetPaused(caller: Address, on: bool) returns (ok: bool)
      modifies this
      ensures match ApplyPause(old(State()), Call.SetPaused(caller, on))
              case Panic => !ok && State() == old(State())
              case Return(l, _) => ok && State() == l
    {
      var snapshot := State();
      if caller != admin { return false; }
      ok := AcquireLock();
      if !ok { Revert(snapshot); return false; }
      paused := on;
      events := events + [CircuitPaused(on)];
      locked := false;
    }
  }
}
