/** What every run of the escrow keeps: well-formed storage, conservation of funds, one payout per project. */
module EscrowSafety {
  import opened Primitives
  import opened EscrowLedger

  // ----- Reachable storage -----

  predicate Closed(s: Status) {
    s in {Completed, Disputed, Cancelled}
  }

  ghost predicate ProjectInv(p: Project) {
    && p.deposited >= 0
    && p.status != InProgress && p.status != Verified
    && (p.status == Created ==> p.deposited == 0 || p.deposited < p.amount)
    && (p.status in {Funded, WorkSubmitted} ==> p.deposited > 0 && p.deposited >= p.amount)
    && (p.status in {Completed, Cancelled} ==> p.deposited == 0)
  }

  /** A receipt pays the whole of a covered escrow from the project's client to its freelancer. */
  ghost predicate ReceiptInv(l: Ledger, r: Receipt) {
    && r.projectId in l.projects
    && var p := l.projects[r.projectId];
    && Closed(p.status) && p.deposited == 0
    && r.sender == p.client && r.recipient == p.freelancer
    && r.amount > 0 && r.amount >= p.amount
  }

  /** Project ids and receipt ids are exactly 1..count, no project has two receipts, and the latch is free. */
  ghost predicate Inv(l: Ledger) {
    && !l.locked
    && (forall k: U64 :: k in l.projects <==> 1 <= k <= l.projectCount)
    && (forall k: U64 :: k in l.projects ==> l.projects[k].id == k && ProjectInv(l.projects[k]))
    && (forall k: U64 :: k in l.receipts <==> 1 <= k <= l.receiptCount)
    && (forall k: U64 :: k in l.receipts ==> l.receipts[k].id == k && ReceiptInv(l, l.receipts[k]))
    && (forall j: U64, k: U64 :: j in l.receipts && k in l.receipts && j != k ==>
          l.receipts[j].projectId != l.receipts[k].projectId)
  }

  function NewProject(id: U64, now: U64, client: Address, i: ProjectInput): Project {
    Project(id, client, i.freelancer, i.amount, 0, Created, i.githubRepo, i.description, now, 0)
  }

  /** `l'` is `l` with one fresh project per input, in order, under the next free ids, and nothing else stored. */
  ghost predicate Appended(l: Ledger, l': Ledger, ids: seq<U64>, now: U64, client: Address, inputs: seq<ProjectInput>) {
    && |ids| == |inputs|
    && l'.projectCount == l.projectCount + |inputs|
    && l' == l.(projects := l'.projects, projectCount := l'.projectCount, events := l'.events)
    && (forall k: U64 :: k in l'.projects <==> k in l.projects || l.projectCount < k <= l'.projectCount)
    && (forall k: U64 :: k in l.projects && k <= l.projectCount ==> l'.projects[k] == l.projects[k])
    && (forall i :: 0 <= i < |ids| ==> ids[i] == l.projectCount + 1 + i)
    && (forall i :: 0 <= i < |ids| ==> l'.projects[ids[i]] == NewProject(ids[i], now, client, inputs[i]))
  }

  lemma AppendOne(l: Ledger, l1: Ledger, ids: seq<U64>, now: U64, client: Address, inputs: seq<ProjectInput>)
    requires Open(l) && inputs != []
    requires Appended(l, l1, ids, now, client, inputs[..|inputs| - 1])
    ensures var c := AsCreate(client, inputs[|inputs| - 1]);
            match ApplyCreate(l1, now, c)
            case Panic => l1.projectCount == U64_MAX
            case Return(l2, v) => v.Id? && Appended(l, l2, ids + [v.id], now, client, inputs)
  {
  }

  /** Creating one by one succeeds exactly when the counter has room for all, and then appends them all. */
  lemma {:induction false} CreateEachAppends(l: Ledger, now: U64, client: Address, inputs: seq<ProjectInput>)
    requires Open(l)
    ensures var out := CreateEach(l, now, client, inputs);
            && (out.Return? <==> l.projectCount + |inputs| <= U64_MAX)
            && (out.Return? ==> out.value.Ids? && Appended(l, out.ledger, out.value.ids, now, client, inputs))
  {
    if inputs != [] {
      var n := |inputs| - 1;
      CreateEachAppends(l, now, client, inputs[..n]);
      match CreateEach(l, now, client, inputs[..n])
      case Return(l1, Ids(ids)) => AppendOne(l, l1, ids, now, client, inputs);
      case _ =>
    }
  }

  lemma AppendedAreNew(l: Ledger, l': Ledger, ids: seq<U64>, now: U64, client: Address, inputs: seq<ProjectInput>)
    requires Appended(l, l', ids, now, client, inputs)
    ensures forall k: U64 :: l.projectCount < k <= l'.projectCount ==>
              l'.projects[k].id == k && l'.projects[k].deposited == 0 && l'.projects[k].status == Created
  {
    forall k: U64 | l.projectCount < k <= l'.projectCount
      ensures l'.projects[k].id == k && l'.projects[k].deposited == 0 && l'.projects[k].status == Created
    {
      var id := ids[k - l.projectCount - 1];
    }
  }

  /** More projects, nothing deposited in them, and the old ones as they were. */
  lemma NewProjectsKeepInv(l: Ledger, l': Ledger)
    requires Inv(l) && l.projectCount <= l'.projectCount
    requires l' == l.(projects := l'.projects, projectCount := l'.projectCount, events := l'.events)
    requires forall k: U64 :: k in l'.projects <==> 1 <= k <= l'.projectCount
    requires forall k: U64 :: 1 <= k <= l.projectCount ==> l'.projects[k] == l.projects[k]
    requires forall k: U64 :: l.projectCount < k <= l'.projectCount ==>
               l'.projects[k].id == k && l'.projects[k].deposited == 0 && l'.projects[k].status == Created
    ensures Inv(l')
  {
    forall k: U64 | k in l'.receipts ensures ReceiptInv(l', l'.receipts[k]) {
      assert ReceiptInv(l, l.receipts[k]);
    }
  }

  lemma AppendedKeepsInv(l: Ledger, l': Ledger, ids: seq<U64>, now: U64, client: Address, inputs: seq<ProjectInput>)
    requires Inv(l) && Appended(l, l', ids, now, client, inputs)
    ensures Inv(l')
    ensures forall k: U64 :: l.projectCount < k <= l'.projectCount ==>
              l'.projects[k].deposited == 0 && l'.projects[k].status == Created
  {
    AppendedAreNew(l, l', ids, now, client, inputs);
    NewProjectsKeepInv(l, l');
  }

  /** The move of one stored project from `p` to `q` that a call can make; `Created` is never re-entered. */
  ghost predicate Edge(p: Project, q: Project) {
    && q == p.(status := q.status, deposited := q.deposited, githubRepo := q.githubRepo)
    && (match (p.status, q.status)
        case (Created, Created) => q.deposited > p.deposited
        case (Created, Funded) => q.deposited > p.deposited
        case (Funded, WorkSubmitted) => q.deposited == p.deposited
        case (WorkSubmitted, Completed) => q.deposited == 0
        case (Disputed, Completed) => q.deposited == 0
        case (Disputed, Cancelled) => q.deposited == 0
        case (_, Disputed) => q.deposited == p.deposited
        case (_, Cancelled) => !Closed(p.status) && q.deposited == 0
        case _ => false)
  }

  /** Only project `id` and the event log changed, along an edge. */
  ghost predicate Updated(l: Ledger, l': Ledger, id: U64) {
    && id in l.projects && id in l'.projects
    && Edge(l.projects[id], l'.projects[id])
    && ProjectInv(l'.projects[id])
    && l' == l.(projects := l.projects[id := l'.projects[id]], events := l'.events)
  }

  lemma UpdatedKeepsInv(l: Ledger, l': Ledger, id: U64)
    requires Inv(l) && Updated(l, l', id)
    ensures Inv(l')
  {
  }

  /** What one accepted approval does: closes a submitted project and receipts all it held. */
  ghost predicate Paid(l: Ledger, l': Ledger, now: U64, id: U64) {
    && id in l.projects && id in l'.projects
    && l.projects[id].status == WorkSubmitted
    && l'.projects[id] == l.projects[id].(status := Completed, deposited := 0)
    && l.receiptCount < U64_MAX
    && var r := l.receiptCount + 1;
    && var p := l.projects[id];
    && l' == l.(projects := l.projects[id := l'.projects[id]], events := l'.events, receiptCount := r,
                receipts := l.receipts[r := Receipt(r, id, p.deposited, "XLM", p.client, p.freelancer, now)])
  }

  lemma UnpaidHasNoReceipt(l: Ledger, id: U64)
    requires Inv(l) && id in l.projects && !Closed(l.projects[id].status)
    ensures forall k: U64 :: k in l.receipts ==> l.receipts[k].projectId != id
  {
    forall k: U64 | k in l.receipts ensures l.receipts[k].projectId != id {
      assert ReceiptInv(l, l.receipts[k]);
    }
  }

  lemma PaidReceipts(l: Ledger, l': Ledger, now: U64, id: U64)
    requires Inv(l) && Paid(l, l', now, id)
    ensures forall k: U64 :: k in l'.receipts ==> l'.receipts[k].id == k && ReceiptInv(l', l'.receipts[k])
  {
    forall k: U64 | k in l'.receipts ensures l'.receipts[k].id == k && ReceiptInv(l', l'.receipts[k]) {
      assert k in l.receipts ==> ReceiptInv(l, l.receipts[k]);
    }
  }

  lemma PaidKeepsInv(l: Ledger, l': Ledger, now: U64, id: U64)
    requires Inv(l) && Paid(l, l', now, id)
    ensures Inv(l')
  {
    UnpaidHasNoReceipt(l, id);
    PaidReceipts(l, l', now, id);
  }

  predicate Touches(c: Call) {
    !c.CreateProject? && !c.BatchCreateProjects? && !c.SetPaused?
  }

  lemma MoneyCallShape(l: Ledger, s: Step)
    requires Inv(l) && (s.call.FundProject? || s.call.ApproveWork? || s.call.CheckDeadline?)
    ensures var l' := Next(l, s);
            l' == l || Updated(l, l', s.call.id) || (s.call.ApproveWork? && Paid(l, l', s.now, s.call.id))
  {
  }

  lemma VerdictCallShape(l: Ledger, s: Step)
    requires Inv(l) && (s.call.SubmitWork? || s.call.RaiseDispute? || s.call.ResolveDispute?)
    ensures Next(l, s) == l || Updated(l, Next(l, s), s.call.id)
  {
  }

  /** Every call that names a project leaves storage alone, moves that project along an edge, or pays it out. */
  lemma CallShape(l: Ledger, s: Step)
    requires Inv(l) && Touches(s.call)
    ensures var l' := Next(l, s);
            l' == l || Updated(l, l', s.call.id) || (s.call.ApproveWork? && Paid(l, l', s.now, s.call.id))
  {
    if s.call.FundProject? || s.call.ApproveWork? || s.call.CheckDeadline? {
      MoneyCallShape(l, s);
    } else {
      VerdictCallShape(l, s);
    }
  }

  lemma CreateShape(l: Ledger, s: Step) returns (ids: seq<U64>, client: Address, inputs: seq<ProjectInput>)
    requires Inv(l) && s.call.BatchCreateProjects?
    ensures Next(l, s) == l || Appended(l, Next(l, s), ids, s.now, client, inputs)
  {
    client, inputs, ids := s.call.client, s.call.inputs, [];
    if Open(l) {
      CreateEachAppends(l, s.now, client, inputs);
      var out := ApplyBatch(l, s.now, s.call);
      if out.Return? {
        ids := out.value.ids;
      }
    }
  }

  lemma TouchKeepsInv(l: Ledger, s: Step)
    requires Inv(l) && Touches(s.call)
    ensures Inv(Next(l, s))
  {
    var l' := Next(l, s);
    CallShape(l, s);
    if Updated(l, l', s.call.id) {
      UpdatedKeepsInv(l, l', s.call.id);
    } else if l' != l {
      PaidKeepsInv(l, l', s.now, s.call.id);
    }
  }

  lemma BatchKeepsInv(l: Ledger, s: Step)
    requires Inv(l) && s.call.BatchCreateProjects?
    ensures Inv(Next(l, s))
  {
    var ids, client, inputs := CreateShape(l, s);
    if Next(l, s) != l {
      AppendedKeepsInv(l, Next(l, s), ids, s.now, client, inputs);
    }
  }

  /** `l'` is `l` with project `p` under the next free id. */
  ghost predicate AppendedOne(l: Ledger, l': Ledger, p: Project) {
    && l.projectCount < U64_MAX
    && p.id == l.projectCount + 1 && p.status == Created && p.deposited == 0
    && l' == l.(projects := l.projects[p.id := p], projectCount := p.id, events := l'.events)
  }

  lemma AppendedOneKeepsInv(l: Ledger, l': Ledger, p: Project)
    requires Inv(l) && AppendedOne(l, l', p)
    ensures Inv(l')
  {
    forall k: U64 | k in l'.receipts ensures ReceiptInv(l', l'.receipts[k]) {
      assert ReceiptInv(l, l.receipts[k]);
    }
  }

  lemma CreateOneShape(l: Ledger, s: Step) returns (p: Project)
    requires Inv(l) && s.call.CreateProject?
    ensures Next(l, s) == l || AppendedOne(l, Next(l, s), p)
  {
    var c, id := s.call, if l.projectCount < U64_MAX then l.projectCount + 1 else 0;
    p := Project(id, c.client, c.freelancer, c.amount, 0, Created, c.githubRepo, c.description, s.now, c.deadline);
  }

  lemma CreateKeepsInv(l: Ledger, s: Step)
    requires Inv(l) && s.call.CreateProject?
    ensures Inv(Next(l, s))
  {
    var p := CreateOneShape(l, s);
    if Next(l, s) != l {
      AppendedOneKeepsInv(l, Next(l, s), p);
    }
  }

  lemma PauseKeepsInv(l: Ledger, s: Step)
    requires Inv(l) && s.call.SetPaused?
    ensures Inv(Next(l, s))
  {
    forall k: U64 | k in l.receipts ensures ReceiptInv(Next(l, s), l.receipts[k]) {
      assert ReceiptInv(l, l.receipts[k]);
    }
  }

  lemma StepKeepsInv(l: Ledger, s: Step)
    requires Inv(l)
    ensures Inv(Next(l, s))
  {
    if Touches(s.call) {
      TouchKeepsInv(l, s);
    } else if s.call.BatchCreateProjects? {
      BatchKeepsInv(l, s);
    } else if s.call.CreateProject? {
      CreateKeepsInv(l, s);
    } else {
      PauseKeepsInv(l, s);
    }
  }

  lemma {:induction false} RunKeepsInv(admin: Address, steps: seq<Step>)
    ensures Inv(Run(Init(admin), steps))
  {
    if steps != [] {
      RunKeepsInv(admin, steps[..|steps| - 1]);
      StepKeepsInv(Run(Init(admin), steps[..|steps| - 1]), steps[|steps| - 1]);
    }
  }

  // ----- Money -----

  /** The four ways an accepted call moves escrowed money. */
  datatype Flow = Deposit | Release | Resolution | Refund

  /** What step `s` moves along `flow` when it runs from `l`; a panicking call moves nothing. */
  function Moved(flow: Flow, l: Ledger, s: Step): int {
    var out := Apply(l, s.now, s.call);
    if out.Panic? then 0
    else
      match flow
      case Deposit => if s.call.FundProject? then s.call.amount else 0
      case Release => if s.call.ApproveWork? then l.projects[s.call.id].deposited else 0
      case Resolution => if s.call.ResolveDispute? then l.projects[s.call.id].deposited else 0
      case Refund =>
        if s.call.CheckDeadline? && out.value == Flag(true) then l.projects[s.call.id].deposited else 0
  }

  predicate Concerns(s: Step, id: U64) {
    match s.call
    case FundProject(k, _, _) => k == id
    case ApproveWork(k, _) => k == id
    case ResolveDispute(k, _, _) => k == id
    case CheckDeadline(k) => k == id
    case _ => false
  }

  /** `scope` narrows an account to one project; `None` is the whole contract. */
  function Share(flow: Flow, l: Ledger, s: Step, scope: Option<U64>): int {
    if scope.None? || Concerns(s, scope.value) then Moved(flow, l, s) else 0
  }

  function Total(flow: Flow, l0: Ledger, steps: seq<Step>, scope: Option<U64>): int {
    if steps == [] then 0
    else
      var before := steps[..|steps| - 1];
      Total(flow, l0, before, scope) + Share(flow, Run(l0, before), steps[|steps| - 1], scope)
  }

  function Out(l: Ledger, s: Step, scope: Option<U64>): int {
    Share(Release, l, s, scope) + Share(Resolution, l, s, scope) + Share(Refund, l, s, scope)
  }

  /** Money still in escrow in projects 1..n. */
  function Held(projects: map<U64, Project>, n: U64, scope: Option<U64>): int {
    if n == 0 then 0
    else Held(projects, n - 1, scope)
         + if n in projects && (scope.None? || scope.value == n) then projects[n].deposited else 0
  }

  /** Money recorded by receipts 1..n. */
  function Receipted(receipts: map<U64, Receipt>, n: U64, scope: Option<U64>): int {
    if n == 0 then 0
    else Receipted(receipts, n - 1, scope)
         + if n in receipts && (scope.None? || scope.value == receipts[n].projectId) then receipts[n].amount else 0
  }

  lemma {:induction false} HeldFrame(p: map<U64, Project>, q: map<U64, Project>, n: U64, scope: Option<U64>)
    requires forall k: U64 :: 1 <= k <= n ==> k in p && k in q && p[k].deposited == q[k].deposited
    ensures Held(p, n, scope) == Held(q, n, scope)
  {
    if n > 0 {
      HeldFrame(p, q, n - 1, scope);
    }
  }

  lemma {:induction false} HeldPut(p: map<U64, Project>, n: U64, id: U64, x: Project, scope: Option<U64>)
    requires 1 <= id <= n
    requires forall k: U64 :: 1 <= k <= n ==> k in p
    ensures Held(p[id := x], n, scope)
            == Held(p, n, scope) + if scope.None? || scope.value == id then x.deposited - p[id].deposited else 0
  {
    if id == n {
      HeldFrame(p, p[id := x], n - 1, scope);
    } else {
      HeldPut(p, n - 1, id, x, scope);
    }
  }

  /** Projects appended with nothing deposited add nothing. */
  lemma {:induction false} HeldAppend(p: map<U64, Project>, q: map<U64, Project>, m: U64, n: U64, scope: Option<U64>)
    requires m <= n
    requires forall k: U64 :: 1 <= k <= m ==> k in p && k in q && p[k] == q[k]
    requires forall k: U64 :: m < k <= n ==> k in q && q[k].deposited == 0
    ensures Held(q, n, scope) == Held(p, m, scope)
  {
    if m == n {
      HeldFrame(p, q, n, scope);
    } else {
      HeldAppend(p, q, m, n - 1, scope);
    }
  }

  lemma {:induction false} ReceiptedFrame(r: map<U64, Receipt>, n: U64, k: U64, x: Receipt, scope: Option<U64>)
    requires n < k
    ensures Receipted(r[k := x], n, scope) == Receipted(r, n, scope)
  {
    if n > 0 {
      ReceiptedFrame(r, n - 1, k, x, scope);
    }
  }

  /** What a call moves is what the named project's escrow gains and loses. */
  lemma NetMove(l: Ledger, s: Step)
    requires Inv(l)
    ensures !Touches(s.call) || Next(l, s) == l ==> forall flow :: Moved(flow, l, s) == 0
    ensures Touches(s.call) && Next(l, s) != l ==>
              && s.call.id in l.projects && s.call.id in Next(l, s).projects
              && Next(l, s).projects[s.call.id].deposited
                 == l.projects[s.call.id].deposited + Share(Deposit, l, s, None) - Out(l, s, None)
              && (!Concerns(s, s.call.id) ==> forall flow :: Moved(flow, l, s) == 0)
              && (forall id: U64 :: id != s.call.id ==> !Concerns(s, id))
              && (!s.call.ApproveWork? ==> Moved(Release, l, s) == 0)
  {
  }

  /** `gain` is what the accounts in `scope` gained in escrow, `receipted` what their receipts gained. */
  ghost predicate Moves(l: Ledger, l': Ledger, scope: Option<U64>, gain: int, receipted: int) {
    && Held(l'.projects, l'.projectCount, scope) == Held(l.projects, l.projectCount, scope) + gain
    && Receipted(l'.receipts, l'.receiptCount, scope) == Receipted(l.receipts, l.receiptCount, scope) + receipted
  }

  predicate Covers(scope: Option<U64>, id: U64) {
    scope.None? || scope.value == id
  }

  lemma UpdatedMoves(l: Ledger, l': Ledger, id: U64, scope: Option<U64>)
    requires Inv(l) && Updated(l, l', id)
    ensures Moves(l, l', scope,
                  if Covers(scope, id) then l'.projects[id].deposited - l.projects[id].deposited else 0, 0)
  {
    HeldPut(l.projects, l.projectCount, id, l'.projects[id], scope);
  }

  lemma PaidMoves(l: Ledger, l': Ledger, now: U64, id: U64, scope: Option<U64>)
    requires Inv(l) && Paid(l, l', now, id)
    ensures var paid := if Covers(scope, id) then l.projects[id].deposited else 0;
            Moves(l, l', scope, -paid, paid)
  {
    HeldPut(l.projects, l.projectCount, id, l'.projects[id], scope);
    ReceiptedFrame(l.receipts, l.receiptCount, l'.receiptCount, l'.receipts[l'.receiptCount], scope);
  }

  lemma AppendedMoves(l: Ledger, l': Ledger, scope: Option<U64>)
    requires l.projectCount <= l'.projectCount
    requires forall k: U64 :: 1 <= k <= l'.projectCount ==> k in l'.projects
    requires forall k: U64 :: 1 <= k <= l.projectCount ==> k in l.projects && l'.projects[k] == l.projects[k]
    requires forall k: U64 :: l.projectCount < k <= l'.projectCount ==> l'.projects[k].deposited == 0
    requires l'.receipts == l.receipts && l'.receiptCount == l.receiptCount
    ensures Moves(l, l', scope, 0, 0)
  {
    HeldAppend(l.projects, l'.projects, l.projectCount, l'.projectCount, scope);
  }

  lemma CreateConserves(l: Ledger, s: Step, scope: Option<U64>)
    requires Inv(l) && !Touches(s.call)
    ensures Moves(l, Next(l, s), scope, 0, 0)
  {
    var l' := Next(l, s);
    if l' != l {
      if s.call.BatchCreateProjects? {
        var ids, client, inputs := CreateShape(l, s);
        AppendedKeepsInv(l, l', ids, s.now, client, inputs);
      }
      AppendedMoves(l, l', scope);
    }
  }

  lemma StepConserves(l: Ledger, s: Step, scope: Option<U64>)
    requires Inv(l)
    ensures Moves(l, Next(l, s), scope, Share(Deposit, l, s, scope) - Out(l, s, scope), Share(Release, l, s, scope))
  {
    NetMove(l, s);
    if !Touches(s.call) {
      CreateConserves(l, s, scope);
    } else {
      CallShape(l, s);
      var l', id := Next(l, s), s.call.id;
      if Updated(l, l', id) {
        UpdatedMoves(l, l', id, scope);
      } else if l' != l {
        PaidMoves(l, l', s.now, id, scope);
      }
    }
  }

  /** Every accepted deposit is still in escrow, or was receipted, resolved or refunded. */
  lemma {:induction false} Conservation(admin: Address, steps: seq<Step>, scope: Option<U64>)
    ensures var l0 := Init(admin);
            var l := Run(l0, steps);
            && Total(Deposit, l0, steps, scope)
               == Held(l.projects, l.projectCount, scope) + Receipted(l.receipts, l.receiptCount, scope)
                  + Total(Resolution, l0, steps, scope) + Total(Refund, l0, steps, scope)
            && Receipted(l.receipts, l.receiptCount, scope) == Total(Release, l0, steps, scope)
  {
    if steps != [] {
      var before := steps[..|steps| - 1];
      Conservation(admin, before, scope);
      RunKeepsInv(admin, before);
      StepConserves(Run(Init(admin), before), steps[|steps| - 1], scope);
    }
  }

  /** The account of one project holds exactly what its record says. */
  lemma {:induction false} HeldOfOne(p: map<U64, Project>, n: U64, id: U64)
    requires forall k: U64 :: 1 <= k <= n ==> k in p
    ensures Held(p, n, Some(id)) == if 1 <= id <= n then p[id].deposited else 0
  {
    if n > 0 {
      HeldOfOne(p, n - 1, id);
    }
  }

  // ----- One way through the life cycle -----

  function Rank(s: Status): nat {
    match s
    case Created => 0
    case Funded => 1
    case WorkSubmitted => 2
    case _ => 3
  }

  /** How a project record can look later: same deal, never further back, and an emptied escrow stays empty. */
  ghost predicate Later(p: Project, q: Project) {
    && q == p.(status := q.status, deposited := q.deposited, githubRepo := q.githubRepo)
    && Rank(p.status) <= Rank(q.status)
    && (Closed(p.status) ==> q.deposited <= p.deposited)
  }

  lemma StepIsLater(l: Ledger, s: Step, id: U64)
    requires Inv(l) && id in l.projects
    ensures id in Next(l, s).projects && Later(l.projects[id], Next(l, s).projects[id])
  {
    if Touches(s.call) {
      CallShape(l, s);
    } else if s.call.BatchCreateProjects? {
      var ids, client, inputs := CreateShape(l, s);
    }
  }

  /** Between any two moments of any run a project keeps its parties and terms and never goes back a stage. */
  lemma {:induction false} NeverBack(admin: Address, steps: seq<Step>, n: nat, id: U64)
    requires n <= |steps| && id in Run(Init(admin), steps[..n]).projects
    ensures id in Run(Init(admin), steps).projects
    ensures Later(Run(Init(admin), steps[..n]).projects[id], Run(Init(admin), steps).projects[id])
  {
    if n == |steps| {
      assert steps[..n] == steps;
    } else {
      var before := steps[..|steps| - 1];
      assert before[..n] == steps[..n];
      NeverBack(admin, before, n, id);
      RunKeepsInv(admin, before);
      StepIsLater(Run(Init(admin), before), steps[|steps| - 1], id);
    }
  }

  // ----- One payout per project -----

  ghost predicate Settled(l: Ledger, id: U64) {
    id in l.projects && Closed(l.projects[id].status) && l.projects[id].deposited == 0
  }

  /** A payout empties the escrow it pays from; a settled project stays settled and neither takes nor gives money. */
  lemma PayoutSettles(l: Ledger, s: Step, id: U64)
    requires Inv(l)
    ensures forall flow :: Share(flow, l, s, Some(id)) >= 0
    ensures Out(l, s, Some(id)) > 0 ==>
              id in l.projects && Out(l, s, Some(id)) == l.projects[id].deposited && Settled(Next(l, s), id)
    ensures Settled(l, id) ==>
              Out(l, s, Some(id)) == 0 && Share(Deposit, l, s, Some(id)) == 0 && Settled(Next(l, s), id)
  {
    NetMove(l, s);
    if Settled(l, id) {
      StepIsLater(l, s, id);
      StepKeepsInv(l, s);
    }
  }

  /** What step `i` of a run pays out of project `id`. */
  function OutAt(admin: Address, steps: seq<Step>, i: nat, id: U64): int
    requires i < |steps|
  {
    Out(Run(Init(admin), steps[..i]), steps[i], Some(id))
  }

  lemma {:induction false} SettledForever(admin: Address, steps: seq<Step>, n: nat, id: U64)
    requires n <= |steps| && Settled(Run(Init(admin), steps[..n]), id)
    ensures Settled(Run(Init(admin), steps), id)
    ensures Total(Deposit, Init(admin), steps, Some(id)) == Total(Deposit, Init(admin), steps[..n], Some(id))
  {
    if n == |steps| {
      assert steps[..n] == steps;
    } else {
      var before := steps[..|steps| - 1];
      assert before[..n] == steps[..n];
      SettledForever(admin, before, n, id);
      RunKeepsInv(admin, before);
      PayoutSettles(Run(Init(admin), before), steps[|steps| - 1], id);
    }
  }

  lemma PaidThenSettled(admin: Address, steps: seq<Step>, i: nat, id: U64)
    requires i < |steps| && OutAt(admin, steps, i, id) > 0
    ensures Settled(Run(Init(admin), steps[..i + 1]), id)
    ensures Total(Deposit, Init(admin), steps[..i + 1], Some(id)) == Total(Deposit, Init(admin), steps[..i], Some(id))
  {
    assert steps[..i + 1][..i] == steps[..i];
    RunKeepsInv(admin, steps[..i]);
    NetMove(Run(Init(admin), steps[..i]), steps[i]);
    PayoutSettles(Run(Init(admin), steps[..i]), steps[i], id);
  }

  lemma NoSecondPayout(admin: Address, steps: seq<Step>, i: nat, j: nat, id: U64)
    requires i < j < |steps| && OutAt(admin, steps, i, id) > 0
    ensures OutAt(admin, steps, j, id) == 0
  {
    PaidThenSettled(admin, steps, i, id);
    assert steps[..j][..i + 1] == steps[..i + 1];
    SettledForever(admin, steps[..j], i + 1, id);
    RunKeepsInv(admin, steps[..j]);
    PayoutSettles(Run(Init(admin), steps[..j]), steps[j], id);
  }

  /** If step `i` pays anything out of project `id`, no other step does, and it pays all that was ever deposited. */
  lemma OnePayout(admin: Address, steps: seq<Step>, i: nat, id: U64)
    requires i < |steps| && OutAt(admin, steps, i, id) > 0
    ensures OutAt(admin, steps, i, id) == Total(Deposit, Init(admin), steps, Some(id))
    ensures forall j :: 0 <= j < |steps| && j != i ==> OutAt(admin, steps, j, id) == 0
  {
    forall j | 0 <= j < |steps| && j != i ensures OutAt(admin, steps, j, id) == 0 {
      RunKeepsInv(admin, steps[..j]);
      PayoutSettles(Run(Init(admin), steps[..j]), steps[j], id);
      if j < i && OutAt(admin, steps, j, id) > 0 {
        NoSecondPayout(admin, steps, j, i, id);
      } else if i < j {
        NoSecondPayout(admin, steps, i, j, id);
      }
    }
    OnePayoutAmount(admin, steps, i, id);
  }

  lemma OnePayoutAmount(admin: Address, steps: seq<Step>, i: nat, id: U64)
    requires i < |steps| && OutAt(admin, steps, i, id) > 0
    requires forall j :: 0 <= j < i ==> OutAt(admin, steps, j, id) == 0
    ensures OutAt(admin, steps, i, id) == Total(Deposit, Init(admin), steps, Some(id))
  {
    PaidThenSettled(admin, steps, i, id);
    SettledForever(admin, steps, i + 1, id);
    forall j | 0 <= j < i ensures OutAt(admin, steps[..i], j, id) == 0 {
      assert steps[..i][..j] == steps[..j] && OutAt(admin, steps, j, id) == 0;
    }
    NothingOut(admin, steps[..i], id);
    PayoutIsBalance(admin, steps, i, id);
  }

  lemma PayoutIsBalance(admin: Address, steps: seq<Step>, i: nat, id: U64)
    requires i < |steps| && OutAt(admin, steps, i, id) > 0
    ensures var l := Run(Init(admin), steps[..i]);
            id in l.projects && OutAt(admin, steps, i, id) == l.projects[id].deposited
  {
    RunKeepsInv(admin, steps[..i]);
    PayoutSettles(Run(Init(admin), steps[..i]), steps[i], id);
  }

  /** Until the first payout, a project holds everything deposited into it. */
  lemma {:induction false} NothingOut(admin: Address, steps: seq<Step>, id: U64)
    requires forall j :: 0 <= j < |steps| ==> OutAt(admin, steps, j, id) == 0
    ensures var l := Run(Init(admin), steps);
            id in l.projects ==> l.projects[id].deposited == Total(Deposit, Init(admin), steps, Some(id))
  {
    var l := Run(Init(admin), steps);
    RunKeepsInv(admin, steps);
    NoneOut(admin, steps, id);
    Conservation(admin, steps, Some(id));
    HeldOfOne(l.projects, l.projectCount, id);
  }

  lemma {:induction false} NoneOut(admin: Address, steps: seq<Step>, id: U64)
    requires forall j :: 0 <= j < |steps| ==> OutAt(admin, steps, j, id) == 0
    ensures Total(Release, Init(admin), steps, Some(id)) == 0
    ensures Total(Resolution, Init(admin), steps, Some(id)) == 0
    ensures Total(Refund, Init(admin), steps, Some(id)) == 0
  {
    if steps != [] {
      var before := steps[..|steps| - 1];
      forall j | 0 <= j < |before| ensures OutAt(admin, before, j, id) == 0 {
        assert before[..j] == steps[..j] && OutAt(admin, steps, j, id) == 0;
      }
      NoneOut(admin, before, id);
      RunKeepsInv(admin, before);
      assert OutAt(admin, steps, |before|, id) == 0;
      PayoutSettles(Run(Init(admin), before), steps[|steps| - 1], id);
    }
  }

  // ----- No release without both parties -----

  /** Step `i` of the run is call `c` and did not panic. */
  ghost predicate Accepted(admin: Address, steps: seq<Step>, i: nat, c: Call) {
    i < |steps| && steps[i].call == c && Apply(Run(Init(admin), steps[..i]), steps[i].now, c).Return?
  }

  lemma AcceptedExtends(admin: Address, steps: seq<Step>, i: nat, c: Call)
    requires steps != [] && Accepted(admin, steps[..|steps| - 1], i, c)
    ensures Accepted(admin, steps, i, c)
  {
    assert steps[..|steps| - 1][..i] == steps[..i];
  }

  lemma SubmissionShape(l: Ledger, s: Step, id: U64)
    requires Inv(l) && id in Next(l, s).projects && Next(l, s).projects[id].status == WorkSubmitted
    requires id !in l.projects || l.projects[id].status != WorkSubmitted
    ensures Apply(l, s.now, s.call).Return?
    ensures exists repo :: s.call == SubmitWork(id, Next(l, s).projects[id].freelancer, repo)
  {
    if Touches(s.call) {
      CallShape(l, s);
      assert s.call.SubmitWork?;
      assert s.call == SubmitWork(id, Next(l, s).projects[id].freelancer, s.call.githubRepo);
    } else if s.call.BatchCreateProjects? {
      var ids, client, inputs := CreateShape(l, s);
      if Next(l, s) != l {
        AppendedKeepsInv(l, Next(l, s), ids, s.now, client, inputs);
      }
    }
  }

  lemma {:induction false} SubmittedByFreelancer(admin: Address, steps: seq<Step>, id: U64) returns (i: nat, c: Call)
    requires id in Run(Init(admin), steps).projects
    requires Run(Init(admin), steps).projects[id].status == WorkSubmitted
    ensures c.SubmitWork? && c.id == id && c.freelancer == Run(Init(admin), steps).projects[id].freelancer
    ensures Accepted(admin, steps, i, c)
  {
    if steps == [] {
      assert false;
    } else {
      var before, last := steps[..|steps| - 1], steps[|steps| - 1];
      var l := Run(Init(admin), before);
      RunKeepsInv(admin, before);
      if id in l.projects && l.projects[id].status == WorkSubmitted {
        i, c := SubmittedByFreelancer(admin, before, id);
        AcceptedExtends(admin, steps, i, c);
        StepIsLater(l, last, id);
      } else {
        SubmissionShape(l, last, id);
        i, c := |steps| - 1, last.call;
      }
    }
  }

  lemma ReceiptShape(l: Ledger, s: Step, rid: U64)
    requires Inv(l) && rid in Next(l, s).receipts && rid !in l.receipts
    ensures s.call.ApproveWork? && Paid(l, Next(l, s), s.now, s.call.id)
    ensures Apply(l, s.now, s.call).Return? && s.call.client == l.projects[s.call.id].client
    ensures Next(l, s).receipts[rid].projectId == s.call.id
  {
    if Touches(s.call) {
      CallShape(l, s);
    } else if s.call.BatchCreateProjects? {
      var ids, client, inputs := CreateShape(l, s);
    }
  }

  lemma ReceiptStays(l: Ledger, s: Step, rid: U64)
    requires Inv(l) && rid in l.receipts
    ensures rid in Next(l, s).receipts && Next(l, s).receipts[rid] == l.receipts[rid]
  {
    if Touches(s.call) {
      CallShape(l, s);
    } else if s.call.BatchCreateProjects? {
      var ids, client, inputs := CreateShape(l, s);
    }
  }

  /** Behind every receipt stand an accepted submission by its recipient and a later accepted approval by its sender. */
  lemma {:induction false} ReceiptNeedsBoth(admin: Address, steps: seq<Step>, rid: U64)
      returns (i: nat, submit: Call, j: nat, approve: Call)
    requires rid in Run(Init(admin), steps).receipts
    ensures i < j && Accepted(admin, steps, i, submit) && Accepted(admin, steps, j, approve)
    ensures var r := Run(Init(admin), steps).receipts[rid];
            && submit.SubmitWork? && submit.id == r.projectId && submit.freelancer == r.recipient
            && approve == ApproveWork(r.projectId, r.sender)
            && r.timestamp == steps[j].now && r.currency == "XLM" && r.amount == OutAt(admin, steps, j, r.projectId)
  {
    if steps == [] {
      assert false;
    } else {
      var before, last := steps[..|steps| - 1], steps[|steps| - 1];
      var l := Run(Init(admin), before);
      RunKeepsInv(admin, before);
      if rid in l.receipts {
        ReceiptStays(l, last, rid);
        i, submit, j, approve := ReceiptNeedsBoth(admin, before, rid);
        AcceptedExtends(admin, steps, i, submit);
        AcceptedExtends(admin, steps, j, approve);
        assert before[..j] == steps[..j];
      } else {
        ReceiptShape(l, last, rid);
        var id := last.call.id;
        i, submit := SubmittedByFreelancer(admin, before, id);
        AcceptedExtends(admin, steps, i, submit);
        j, approve := |steps| - 1, last.call;
        assert steps[..j] == before;
        var r := Next(l, last).receipts[rid];
        var p := l.projects[id];
        assert r == Receipt(rid, id, p.deposited, "XLM", p.client, p.freelancer, last.now);
      }
    }
  }
}
