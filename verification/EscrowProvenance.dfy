/** What stands behind the escrow's records: which calls are accepted, and which call put each record where it is. */
module EscrowProvenance {
  import opened Primitives
  import opened EscrowLedger
  import opened EscrowSafety

  // ----- Who may call what, and when -----

  /** The access rules of the entry points: caller, stage and time, and room for what the call adds. */
  predicate Allowed(l: Ledger, s: Step) {
    match s.call
    case CreateProject(_, _, _, _, _, _) => !l.paused && l.projectCount < U64_MAX
    case BatchCreateProjects(_, inputs) => !l.paused && l.projectCount + |inputs| <= U64_MAX
    case FundProject(id, who, amount) =>
      && !l.paused && id in l.projects && who == l.projects[id].client && l.projects[id].status == Created
      && 0 < amount <= I128_MAX - l.projects[id].deposited
    case SubmitWork(id, who, _) =>
      !l.paused && id in l.projects && who == l.projects[id].freelancer && l.projects[id].status == Funded
    case ApproveWork(id, who) =>
      && !l.paused && id in l.projects && who == l.projects[id].client && l.projects[id].status == WorkSubmitted
      && l.receiptCount < U64_MAX
    case RaiseDispute(id, who) =>
      !l.paused && id in l.projects && who in {l.projects[id].client, l.projects[id].freelancer}
    case ResolveDispute(id, who, _) =>
      !l.paused && id in l.projects && who == l.admin && l.projects[id].status == Disputed
    case CheckDeadline(id) => id in l.projects
    case SetPaused(who, _) => who == l.admin
  }

  lemma BatchAllowed(l: Ledger, s: Step)
    requires Inv(l) && s.call.BatchCreateProjects?
    ensures Apply(l, s.now, s.call).Return? <==> Allowed(l, s)
  {
    if !l.paused {
      CreateEachAppends(l, s.now, s.call.client, s.call.inputs);
    }
  }

  /** In every reachable state a call is accepted exactly when the access rules allow it. */
  lemma AcceptedExactly(admin: Address, steps: seq<Step>, s: Step)
    ensures var l := Run(Init(admin), steps); Apply(l, s.now, s.call).Return? <==> Allowed(l, s)
  {
    RunKeepsInv(admin, steps);
    var l := Run(Init(admin), steps);
    if s.call.BatchCreateProjects? {
      BatchAllowed(l, s);
    } else {
      SingleAllowed(l, s);
    }
  }

  lemma SingleAllowed(l: Ledger, s: Step)
    requires Inv(l) && !s.call.BatchCreateProjects?
    ensures Apply(l, s.now, s.call).Return? <==> Allowed(l, s)
  {
  }

  lemma {:induction false} AdminStays(admin: Address, steps: seq<Step>)
    ensures Run(Init(admin), steps).admin == admin
  {
    if steps != [] {
      var before := steps[..|steps| - 1];
      AdminStays(admin, before);
      RunKeepsInv(admin, before);
      StepKeepsAdmin(Run(Init(admin), before), steps[|steps| - 1]);
    }
  }

  lemma StepKeepsAdmin(l: Ledger, s: Step)
    requires Inv(l)
    ensures Next(l, s).admin == l.admin
  {
    if Touches(s.call) {
      CallShape(l, s);
    } else if s.call.BatchCreateProjects? {
      var ids, client, inputs := CreateShape(l, s);
    }
  }

  // ----- The circuit breaker -----

  /** What the administrator last asked for. */
  function LastSwitch(admin: Address, steps: seq<Step>): bool {
    if steps == [] then false
    else
      match steps[|steps| - 1].call
      case SetPaused(who, on) => if who == admin then on else LastSwitch(admin, steps[..|steps| - 1])
      case _ => LastSwitch(admin, steps[..|steps| - 1])
  }

  lemma OthersKeepPause(l: Ledger, s: Step)
    requires Inv(l) && !s.call.SetPaused?
    ensures Next(l, s).paused == l.paused
  {
    if Touches(s.call) {
      CallShape(l, s);
    } else if s.call.BatchCreateProjects? {
      var ids, client, inputs := CreateShape(l, s);
    }
  }

  /** The contract is paused exactly when the administrator's last switch was on. */
  lemma {:induction false} PausedExactly(admin: Address, steps: seq<Step>)
    ensures Run(Init(admin), steps).paused == LastSwitch(admin, steps)
  {
    if steps != [] {
      var before, last := steps[..|steps| - 1], steps[|steps| - 1];
      PausedExactly(admin, before);
      RunKeepsInv(admin, before);
      AdminStays(admin, before);
      if !last.call.SetPaused? {
        OthersKeepPause(Run(Init(admin), before), last);
      }
    }
  }

  // ----- What stands behind a status -----

  /** Step `s` is one that can put a project in the stage of `p`, by someone entitled to it and in time. */
  predicate Brings(admin: Address, s: Step, p: Project) {
    match p.status
    case Created => s.call.CreateProject? || s.call.BatchCreateProjects?
    case Funded => s.call.FundProject? && s.call.id == p.id && s.call.client == p.client && s.call.amount > 0
    case WorkSubmitted => s.call.SubmitWork? && s.call.id == p.id && s.call.freelancer == p.freelancer
    case Disputed => s.call == RaiseDispute(p.id, p.client) || s.call == RaiseDispute(p.id, p.freelancer)
    case Completed => s.call == ApproveWork(p.id, p.client) || s.call == ResolveDispute(p.id, admin, true)
    case Cancelled =>
      || s.call == ResolveDispute(p.id, admin, false)
      || (s.call == CheckDeadline(p.id) && p.deadline != 0 && s.now >= p.deadline)
    case _ => false
  }

  lemma BringsOne(l: Ledger, s: Step, id: U64)
    requires Inv(l) && Touches(s.call) && id in Next(l, s).projects
    requires id !in l.projects || l.projects[id].status != Next(l, s).projects[id].status
    ensures Apply(l, s.now, s.call).Return? && Brings(l.admin, s, Next(l, s).projects[id])
  {
    CallShape(l, s);
  }

  lemma BringsNew(l: Ledger, s: Step, id: U64)
    requires Inv(l) && !Touches(s.call) && id in Next(l, s).projects
    requires id !in l.projects || l.projects[id].status != Next(l, s).projects[id].status
    ensures Apply(l, s.now, s.call).Return? && Brings(l.admin, s, Next(l, s).projects[id])
  {
    if s.call.BatchCreateProjects? {
      var ids, client, inputs := CreateShape(l, s);
      if Next(l, s) != l {
        AppendedKeepsInv(l, Next(l, s), ids, s.now, client, inputs);
      }
    }
  }

  /** Step `i` was accepted, brought project `id` to its stage, and the project has been there ever since. */
  ghost predicate Since(admin: Address, steps: seq<Step>, id: U64, i: nat) {
    && id in Run(Init(admin), steps).projects && i < |steps| && Accepted(admin, steps, i, steps[i].call)
    && Run(Init(admin), steps).projects[id].id == id
    && var p := Run(Init(admin), steps).projects[id];
    && Brings(admin, steps[i], p)
    && forall j :: i < j <= |steps| ==>
         id in Run(Init(admin), steps[..j]).projects && Run(Init(admin), steps[..j]).projects[id].status == p.status
  }

  lemma SinceExtends(admin: Address, steps: seq<Step>, id: U64, i: nat)
    requires steps != [] && Since(admin, steps[..|steps| - 1], id, i)
    requires id in Run(Init(admin), steps).projects
    requires var p, q := Run(Init(admin), steps[..|steps| - 1]).projects[id], Run(Init(admin), steps).projects[id];
             p.status == q.status && p.client == q.client && p.freelancer == q.freelancer && p.id == q.id
             && p.deadline == q.deadline
    ensures Since(admin, steps, id, i)
  {
    var before := steps[..|steps| - 1];
    AcceptedExtends(admin, steps, i, before[i].call);
    forall j | i < j <= |steps|
      ensures id in Run(Init(admin), steps[..j]).projects
      ensures Run(Init(admin), steps[..j]).projects[id].status == Run(Init(admin), steps).projects[id].status
    {
      if j < |steps| {
        assert before[..j] == steps[..j];
      } else {
        assert steps[..j] == steps;
      }
    }
  }

  lemma StepBrings(l: Ledger, s: Step, id: U64)
    requires Inv(l) && id in Next(l, s).projects
    requires id !in l.projects || l.projects[id].status != Next(l, s).projects[id].status
    ensures Apply(l, s.now, s.call).Return? && Brings(l.admin, s, Next(l, s).projects[id])
  {
    if Touches(s.call) {
      BringsOne(l, s, id);
    } else {
      BringsNew(l, s, id);
    }
  }

  lemma SinceNow(admin: Address, steps: seq<Step>, id: U64)
    requires steps != [] && id in Run(Init(admin), steps).projects && Run(Init(admin), steps).projects[id].id == id
    requires var i := |steps| - 1;
             Accepted(admin, steps, i, steps[i].call) && Brings(admin, steps[i], Run(Init(admin), steps).projects[id])
    ensures Since(admin, steps, id, |steps| - 1)
  {
    assert steps[..|steps|] == steps;
  }

  /** Behind the stage of every project stands an accepted call that brought it there, by someone entitled, in time. */
  lemma {:induction false} StageHasCause(admin: Address, steps: seq<Step>, id: U64) returns (i: nat)
    requires id in Run(Init(admin), steps).projects
    ensures Since(admin, steps, id, i)
  {
    if steps == [] {
      assert false;
    } else {
      var before, last := steps[..|steps| - 1], steps[|steps| - 1];
      var l := Run(Init(admin), before);
      RunKeepsInv(admin, before);
      RunKeepsInv(admin, steps);
      AdminStays(admin, before);
      if id in l.projects && l.projects[id].status == Next(l, last).projects[id].status {
        i := StageHasCause(admin, before, id);
        StepIsLater(l, last, id);
        SinceExtends(admin, steps, id, i);
      } else {
        i := |steps| - 1;
        StepBrings(l, last, id);
        SinceNow(admin, steps, id);
      }
    }
  }

  /** Project `id` holds nothing and is in stage `status`. */
  predicate ClosedAs(l: Ledger, id: U64, status: Status) {
    id in l.projects && l.projects[id].status == status && l.projects[id].deposited == 0
  }

  /** The other way round: the administrator's ruling on a disputed project is accepted and stored as given. */
  lemma RulingCloses(admin: Address, steps: seq<Step>, id: U64, now: U64, toFreelancer: bool)
    requires var l := Run(Init(admin), steps);
             id in l.projects && l.projects[id].status == Disputed && !l.paused
    ensures var l, c := Run(Init(admin), steps), ResolveDispute(id, admin, toFreelancer);
            && Apply(l, now, c).Return?
            && ClosedAs(Next(l, Step(now, c)), id, if toFreelancer then Completed else Cancelled)
  {
    RunKeepsInv(admin, steps);
    AdminStays(admin, steps);
  }

  lemma ApprovalCloses(admin: Address, steps: seq<Step>, id: U64, now: U64)
    requires var l := Run(Init(admin), steps);
             id in l.projects && l.projects[id].status == WorkSubmitted && !l.paused && l.receiptCount < U64_MAX
    ensures var l := Run(Init(admin), steps);
            var c := ApproveWork(id, l.projects[id].client);
            Apply(l, now, c).Return? && ClosedAs(Next(l, Step(now, c)), id, Completed)
  {
    RunKeepsInv(admin, steps);
  }

  /** A deadline check cancels exactly the open projects whose deadline has come, and says so; paused or not. */
  lemma DeadlineCloses(admin: Address, steps: seq<Step>, id: U64, now: U64)
    requires id in Run(Init(admin), steps).projects
    ensures var l, c := Run(Init(admin), steps), CheckDeadline(id);
            var p := l.projects[id];
            var out := Apply(l, now, c);
            && out.Return?
            && (out.value == Flag(true) <==>
                  p.deadline != 0 && now >= p.deadline && p.status in {Created, Funded, WorkSubmitted})
            && (out.value == Flag(true) ==> ClosedAs(Next(l, Step(now, c)), id, Cancelled))
            && (out.value != Flag(true) ==> out == Return(l, Flag(false)))
  {
    RunKeepsInv(admin, steps);
  }

  // ----- Where a project comes from -----

  /** Step `s`, run from `l`, creates project `id` with the terms of `p`; batches set no deadline. */
  predicate Creates(l: Ledger, s: Step, id: U64, p: Project) {
    && p.createdAt == s.now
    && match s.call
       case CreateProject(client, freelancer, amount, description, _, deadline) =>
         && id == l.projectCount + 1 && p.client == client && p.freelancer == freelancer && p.amount == amount
         && p.description == description && p.deadline == deadline
       case BatchCreateProjects(client, inputs) =>
         && l.projectCount < id <= l.projectCount + |inputs|
         && var input := inputs[id - l.projectCount - 1];
         && p.client == client && p.freelancer == input.freelancer && p.amount == input.amount
         && p.description == input.description && p.deadline == 0
       case _ => false
  }

  function RepoGiven(l: Ledger, s: Step, id: U64): string
    requires s.call.CreateProject?
             || (s.call.BatchCreateProjects? && l.projectCount < id <= l.projectCount + |s.call.inputs|)
  {
    if s.call.CreateProject? then s.call.githubRepo else s.call.inputs[id - l.projectCount - 1].githubRepo
  }

  lemma BatchHasTerms(l: Ledger, s: Step, id: U64)
    requires Inv(l) && s.call.BatchCreateProjects? && id !in l.projects && id in Next(l, s).projects
    ensures Apply(l, s.now, s.call).Return? && Creates(l, s, id, Next(l, s).projects[id])
    ensures Next(l, s).projects[id].githubRepo == RepoGiven(l, s, id)
  {
    CreateEachAppends(l, s.now, s.call.client, s.call.inputs);
    var ids := Apply(l, s.now, s.call).value.ids;
    assert ids[id - l.projectCount - 1] == id;
  }

  lemma NewHasTerms(l: Ledger, s: Step, id: U64)
    requires Inv(l) && id !in l.projects && id in Next(l, s).projects
    ensures Apply(l, s.now, s.call).Return? && Creates(l, s, id, Next(l, s).projects[id])
    ensures Next(l, s).projects[id].githubRepo == RepoGiven(l, s, id)
  {
    if Touches(s.call) {
      CallShape(l, s);
    } else if s.call.BatchCreateProjects? {
      BatchHasTerms(l, s, id);
    }
  }

  lemma LaterKeepsTerms(l: Ledger, s: Step, id: U64, p: Project, q: Project)
    requires Creates(l, s, id, p) && Later(p, q)
    ensures Creates(l, s, id, q)
  {
  }

  /** Every project has the terms of the accepted call that created it, at the time it was created. */
  lemma {:induction false} TermsAreAsCreated(admin: Address, steps: seq<Step>, id: U64) returns (i: nat)
    requires id in Run(Init(admin), steps).projects
    ensures i < |steps| && Accepted(admin, steps, i, steps[i].call)
    ensures Creates(Run(Init(admin), steps[..i]), steps[i], id, Run(Init(admin), steps).projects[id])
  {
    if steps == [] {
      assert false;
    } else {
      var before, last := steps[..|steps| - 1], steps[|steps| - 1];
      var l := Run(Init(admin), before);
      RunKeepsInv(admin, before);
      if id in l.projects {
        i := TermsAreAsCreated(admin, before, id);
        AcceptedExtends(admin, steps, i, before[i].call);
        assert before[..i] == steps[..i];
        StepIsLater(l, last, id);
        LaterKeepsTerms(Run(Init(admin), steps[..i]), steps[i], id, l.projects[id], Next(l, last).projects[id]);
      } else {
        i := |steps| - 1;
        NewHasTerms(l, last, id);
      }
    }
  }

  /** A repository reference changes only by an accepted submission of the freelancer, to the one submitted. */
  lemma RepoIsAsSubmitted(l: Ledger, s: Step, id: U64)
    requires Inv(l) && id in l.projects
    ensures id in Next(l, s).projects
    ensures Next(l, s).projects[id].githubRepo
            == if s.call.SubmitWork? && s.call.id == id && Allowed(l, s) then s.call.githubRepo
               else l.projects[id].githubRepo
  {
    StepIsLater(l, s, id);
    if s.call.BatchCreateProjects? {
      var ids, client, inputs := CreateShape(l, s);
    }
  }
}
