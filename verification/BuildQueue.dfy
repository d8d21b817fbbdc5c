// Claiming over any interleaving of repository calls, guarded or not.
module BuildQueue {
  import opened Wrappers
  import opened BuildStore

  // Calls on the repository itself; `OtherOp` stands for anything else that takes
  // identifiers from the shared counter.
  datatype Op =
    | CreateOp(draft: JobDraft, now: int)
    | ClaimOp(runner: string, at: int)
    | CompleteOp(id: int, logPath: string, at: int)
    | FailOp(id: int, logPath: string, message: string, at: int)
    | CancelOp(id: int, message: string, at: int)
    | OtherOp(taken: nat)

  function StateOf<T>(s: Store, r: Result<(Store, T), StoreError>): Store {
    match r
    case Ok((next, _)) => next
    case Err(_) => s
  }

  function Apply(s: Store, op: Op): Store {
    match op
    case CreateOp(draft, now) => StateOf(s, CreateJob(s, draft, now))
    case ClaimOp(runner, at) => StateOf(s, ClaimJob(s, runner, at))
    case CompleteOp(id, logPath, at) => StateOf(s, FinishJob(s, id, Succeeded, logPath, "", at))
    case FailOp(id, logPath, message, at) => StateOf(s, FinishJob(s, id, Failed, logPath, message, at))
    case CancelOp(id, message, at) => StateOf(s, FinishJob(s, id, Canceled, "", message, at))
    case OtherOp(taken) => s.(nextID := s.nextID + taken)
  }

  function Run(start: Store, ops: seq<Op>): Store {
    if ops == [] then start else Apply(Run(start, Front(ops)), Last(ops))
  }

  // The job that step i of the run claimed, if it claimed one.
  function ClaimedAt(start: Store, ops: seq<Op>, i: nat): Option<Job>
    requires i < |ops|
  {
    if ops[i].ClaimOp? then
      match ClaimJob(Run(start, ops[..i]), ops[i].runner, ops[i].at)
      case Ok((_, job)) => Some(job)
      case Err(_) => None
    else None
  }

  // Identifiers are handed out in list order.
  ghost predicate Ordered(s: Store) {
    && (forall i, j :: 0 <= i < j < |s.jobs| ==> s.jobs[i].id < s.jobs[j].id)
    && (forall i :: 0 <= i < |s.jobs| ==> s.jobs[i].id <= s.nextID)
  }

  // No job up to this identifier is still waiting, and none will be created.
  ghost predicate PassedBy(s: Store, id: int) {
    && id <= s.nextID
    && forall i :: 0 <= i < |s.jobs| && s.jobs[i].id <= id ==> s.jobs[i].status != Queued
  }

  // A step keeps every identifier in its place and adds at most one, which is new.
  lemma ApplyShape(s: Store, op: Op)
    ensures var s' := Apply(s, op);
            && s.nextID <= s'.nextID && |s.jobs| <= |s'.jobs| <= |s.jobs| + 1
            && (forall i :: 0 <= i < |s.jobs| ==> s'.jobs[i].id == s.jobs[i].id)
            && (|s'.jobs| > |s.jobs| ==> s'.jobs[|s.jobs|].id == s'.nextID > s.nextID)
  {
  }

  lemma ApplyKeepsOrder(s: Store, op: Op)
    requires Ordered(s)
    ensures Ordered(Apply(s, op))
  {
    ApplyShape(s, op);
  }

  lemma ApplyKeepsPassedBy(s: Store, op: Op, id: int)
    requires Ordered(s) && PassedBy(s, id)
    ensures PassedBy(Apply(s, op), id)
  {
  }

  // A claim takes the waiting job with the smallest identifier.
  lemma ClaimTakesTheOldest(s: Store, runner: string, at: int)
    requires Ordered(s)
    ensures match ClaimJob(s, runner, at)
            case Err(_) => forall i :: 0 <= i < |s.jobs| ==> s.jobs[i].status != Queued
            case Ok((next, job)) =>
              && (exists i :: 0 <= i < |s.jobs| && s.jobs[i].id == job.id && s.jobs[i].status == Queued)
              && (forall i :: 0 <= i < |s.jobs| && s.jobs[i].status == Queued ==> job.id <= s.jobs[i].id)
              && job.status == Running && job.runner == runner && job.startedAt == Some(at)
              && PassedBy(next, job.id)
  {
  }

  lemma JustClaimed(s: Store, op: Op)
    requires Ordered(s) && op.ClaimOp? && ClaimJob(s, op.runner, op.at).Ok?
    ensures PassedBy(Apply(s, op), ClaimJob(s, op.runner, op.at).value.1.id)
  {
    ClaimTakesTheOldest(s, op.runner, op.at);
  }

  lemma {:induction false} RunKeepsOrder(start: Store, ops: seq<Op>)
    requires Ordered(start)
    ensures Ordered(Run(start, ops))
  {
    if ops != [] {
      RunKeepsOrder(start, Front(ops));
      ApplyKeepsOrder(Run(start, Front(ops)), Last(ops));
    }
  }

  lemma OneMoreApplied(start: Store, ops: seq<Op>, n: nat)
    requires n < |ops|
    ensures Run(start, ops[..n + 1]) == Apply(Run(start, ops[..n]), ops[n])
  {
    assert Front(ops[..n + 1]) == ops[..n];
  }

  lemma {:induction false} ClaimedIsPassedBy(start: Store, ops: seq<Op>, i: nat, n: nat)
    requires Ordered(start) && i < n <= |ops| && ClaimedAt(start, ops, i).Some?
    ensures PassedBy(Run(start, ops[..n]), ClaimedAt(start, ops, i).value.id)
    decreases n
  {
    var before := Run(start, ops[..n - 1]);
    RunKeepsOrder(start, ops[..n - 1]);
    OneMoreApplied(start, ops, n - 1);
    if i == n - 1 {
      JustClaimed(before, ops[i]);
    } else {
      ClaimedIsPassedBy(start, ops, i, n - 1);
      ApplyKeepsPassedBy(before, ops[n - 1], ClaimedAt(start, ops, i).value.id);
    }
  }

  // Whatever else happens in between, later claims return jobs with larger identifiers:
  // first in, first out, and no job twice.
  lemma ClaimsIncrease(start: Store, ops: seq<Op>, i: nat, j: nat)
    requires start.jobs == [] && i < j < |ops|
    requires ClaimedAt(start, ops, i).Some? && ClaimedAt(start, ops, j).Some?
    ensures ClaimedAt(start, ops, i).value.id < ClaimedAt(start, ops, j).value.id
  {
    ClaimedIsPassedBy(start, ops, i, j);
    RunKeepsOrder(start, ops[..j]);
    ClaimTakesTheOldest(Run(start, ops[..j]), ops[j].runner, ops[j].at);
  }
}
