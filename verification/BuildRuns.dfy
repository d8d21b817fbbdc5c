// Handlers and any number of workers on one job store, interleaved step by step.
module BuildRuns {
  import opened Wrappers
  import opened BuildStore
  import opened BuildWorker
  import opened BuildHandlers

  // Where a worker stands with the job it claimed.
  datatype Phase = Claimed | Building | Publishing(result: RunnerResult, done: nat)

  // The store, the jobs workers hold, and what the builder's output parsed to for each job.
  datatype World = World(store: Store, held: map<int, Phase>, parsed: map<int, seq<Built>>)

  // Handlers are single steps. A worker claims, loads the profile, waits for the builder,
  // records one artifact at a time and completes in separate ones.
  datatype Event =
    | NewProfile(draft: Profile, at: int)
    | EditProfile(id: int, draft: Profile, at: int)
    | RemoveProfile(id: int)
    | Submit(id: int, platform: string, at: int)
    | Cancel(id: int, at: int)
    | Retry(id: int, at: int)
    | Claim(runner: string, at: int)
    | LoadProfile(id: int, at: int)
    | BuilderEnds(id: int, outcome: Outcome, at: int)
    | RecordNext(id: int, at: int)
    | Complete(id: int, at: int)
    | Elsewhere(taken: nat)

  // A worker records how its job ended and lets go of it.
  function LetGo(w: World, id: int, status: JobStatus, logPath: string, message: string, at: int): World {
    match FinishJob(w.store, id, status, logPath, message, at)
    case Ok((s, _)) => World(s, w.held - {id}, w.parsed)
    case Err(_) => w.(held := w.held - {id})
  }

  function ClaimNext(w: World, runner: string, at: int): World {
    match ClaimJob(w.store, runner, at)
    case Ok((s, job)) => World(s, w.held[job.id := Claimed], w.parsed)
    case Err(_) => w
  }

  function Load(w: World, id: int, at: int): World {
    match FindJob(w.store, id)
    case None => w
    case Some(job) =>
      if FindProfile(w.store, job.profileId).None? then LetGo(w, id, Failed, "", "build profile not found", at)
      else w.(held := w.held[id := Building])
  }

  function BuilderEnded(w: World, id: int, outcome: Outcome, at: int): World {
    if Builds(outcome) then
      var result := outcome.parsed.value;
      World(w.store, w.held[id := Publishing(result, 0)], w.parsed[id := result.artifacts])
    else LetGo(w, id, Failed, FailureOf(outcome).0, FailureOf(outcome).1, at)
  }

  function Recorded(w: World, id: int, at: int): World
    requires id in w.held && w.held[id].Publishing? && w.held[id].done < |w.held[id].result.artifacts|
  {
    match FindJob(w.store, id)
    case None => w
    case Some(job) =>
      var phase := w.held[id];
      var built := phase.result.artifacts[phase.done];
      match CreateArtifact(w.store, Draft(job, built), built.recordedAt)
      case Ok((s, _)) => World(s, w.held[id := phase.(done := phase.done + 1)], w.parsed)
      case Err(e) => LetGo(w, id, Failed, phase.result.buildLog, ErrorText(e), at)
  }

  // A worker only takes the step its program has reached.
  function Next(w: World, e: Event): World {
    match e
    case NewProfile(draft, at) =>
      (match CreateProfile(w.store, draft, at) case Ok((s, _)) => w.(store := s) case Err(_) => w)
    case EditProfile(id, draft, at) =>
      (match UpdateProfile(w.store, id, draft, at) case Ok((s, _)) => w.(store := s) case Err(_) => w)
    case RemoveProfile(id) => w.(store := Removed(w.store, id).0)
    case Submit(id, platform, at) => w.(store := Submitted(w.store, id, platform, at).0)
    case Cancel(id, at) => w.(store := CanceledBy(w.store, id, at).0)
    case Retry(id, at) => w.(store := Retried(w.store, id, at).0)
    case Claim(runner, at) => ClaimNext(w, runner, at)
    case LoadProfile(id, at) => if id in w.held && w.held[id].Claimed? then Load(w, id, at) else w
    case BuilderEnds(id, outcome, at) =>
      if id in w.held && w.held[id].Building? then BuilderEnded(w, id, outcome, at) else w
    case RecordNext(id, at) =>
      if id in w.held && w.held[id].Publishing? && w.held[id].done < |w.held[id].result.artifacts|
      then Recorded(w, id, at) else w
    case Complete(id, at) =>
      if id in w.held && w.held[id].Publishing? && w.held[id].done == |w.held[id].result.artifacts|
      then LetGo(w, id, Succeeded, w.held[id].result.buildLog, "", at) else w
    case Elsewhere(taken) => w.(store := w.store.(nextID := w.store.nextID + taken))
  }

  function Run(nextID: nat, events: seq<Event>): World {
    if events == [] then World(Store(nextID, [], [], []), map[], map[])
    else Next(Run(nextID, Front(events)), Last(events))
  }

  // ------------------------------------------------------------------------
  // The invariant.

  // Start and finish times are present exactly when the status implies them.
  predicate TimesFit(job: Job) {
    && (job.startedAt.Some? <==> job.status == Running || job.status == Succeeded || job.status == Failed)
    && (job.finishedAt.Some? <==> job.status == Succeeded || job.status == Failed || job.status == Canceled)
  }

  // The artifacts a job should have by now.
  predicate Progress(w: World, job: Job, builts: seq<Built>) {
    match job.status
    case Queued | Failed | Canceled => builts == []
    case Running =>
      job.id in w.held &&
      (match w.held[job.id]
       case Publishing(result, done) =>
         done <= |result.artifacts| && builts == result.artifacts[..done]
         && job.id in w.parsed && w.parsed[job.id] == result.artifacts
       case _ => builts == [])
    case Succeeded => job.id in w.parsed && builts == w.parsed[job.id]
  }

  ghost predicate ArtifactsFit(w: World, job: Job) {
    exists builts :: Progress(w, job, builts) && Contents(ArtifactsOf(w.store.artifacts, job.id)) == Drafts(job, builts)
  }

  ghost predicate JobFits(w: World, job: Job) {
    && 0 < job.id <= w.store.nextID
    && job.platform in SUPPORTED_PLATFORMS
    && TimesFit(job)
    && FindProfile(w.store, job.profileId).Some?
    && (job.id in w.held <==> job.status == Running)
    && ArtifactsFit(w, job)
  }

  ghost predicate Invariant(w: World) {
    && (forall i :: 0 <= i < |w.store.jobs| ==> JobFits(w, w.store.jobs[i]))
    && (forall i, j :: 0 <= i < j < |w.store.jobs| ==> w.store.jobs[i].id < w.store.jobs[j].id)
    && (forall id :: id in w.held ==> FindJob(w.store, id).Some?)
    && 0 <= w.store.nextID
    && (forall i :: 0 <= i < |w.store.artifacts| ==> w.store.artifacts[i].buildJobId <= w.store.nextID)
    && (forall i :: 0 <= i < |w.store.profiles| ==> 0 < w.store.profiles[i].id)
  }

  // What one step may do to a job.
  predicate Moves(before: Job, after: Job) {
    && after.id == before.id && after.profileId == before.profileId && after.platform == before.platform
    && after.createdAt == before.createdAt
    && (after == before
        || (before.status == Queued && (after.status == Running || after.status == Canceled))
        || (before.status == Running && (after.status == Succeeded || after.status == Failed)))
  }

  ghost predicate AllMove(before: seq<Job>, after: seq<Job>) {
    |before| <= |after| && forall i :: 0 <= i < |before| ==> Moves(before[i], after[i])
  }

  // What every step keeps: the invariant, and jobs that move only as they may.
  ghost predicate Keeps(w: World, w': World) {
    Invariant(w') && AllMove(w.store.jobs, w'.store.jobs)
  }

  lemma StandingStill(w: World)
    requires Invariant(w)
    ensures Keeps(w, w)
  {
  }

  // ------------------------------------------------------------------------
  // Facts about the store.

  lemma {:induction false} ProfileStored(s: Store, id: int)
    ensures FindProfile(s, id).Some? <==> exists i :: 0 <= i < |s.profiles| && s.profiles[i].id == id
  {
    var i := ProfileIndex(s.profiles, id);
    assert i < |s.profiles| ==> s.profiles[i].id == id;
  }

  // Where a job sits in an ordered list is where its identifier is first found.
  lemma JobFoundAt(s: Store, i: nat)
    requires i < |s.jobs|
    requires forall j, k :: 0 <= j < k < |s.jobs| ==> s.jobs[j].id < s.jobs[k].id
    ensures JobIndex(s.jobs, s.jobs[i].id) == i && FindJob(s, s.jobs[i].id) == Some(s.jobs[i])
  {
  }

  lemma {:induction false} NoArtifactsYet(artifacts: seq<Artifact>, id: int)
    requires forall i :: 0 <= i < |artifacts| ==> artifacts[i].buildJobId < id
    ensures ArtifactsOf(artifacts, id) == []
  {
    if artifacts != [] {
      NoArtifactsYet(Front(artifacts), id);
    }
  }

  // ------------------------------------------------------------------------
  // Preservation.

  // A job still fits after a step that leaves its own part of the world alone.
  lemma JobFitsFrame(w: World, w': World, job: Job)
    requires JobFits(w, job)
    requires w.store.nextID <= w'.store.nextID && FindProfile(w'.store, job.profileId).Some?
    requires job.id in w'.held <==> job.id in w.held
    requires job.id in w.held ==> w'.held[job.id] == w.held[job.id]
    requires job.id in w.parsed ==> job.id in w'.parsed && w'.parsed[job.id] == w.parsed[job.id]
    requires ArtifactsOf(w'.store.artifacts, job.id) == ArtifactsOf(w.store.artifacts, job.id)
    ensures JobFits(w', job)
  {
    var builts :| Progress(w, job, builts) && Contents(ArtifactsOf(w.store.artifacts, job.id)) == Drafts(job, builts);
    assert Progress(w', job, builts);
  }

  // Job i is replaced, and only its part of the workers' state may change with it.
  ghost predicate Replaces(w: World, w': World, i: nat)
    requires i < |w.store.jobs|
  {
    && |w'.store.jobs| == |w.store.jobs|
    && w'.store == w.store.(jobs := w.store.jobs[i := w'.store.jobs[i]])
    && Moves(w.store.jobs[i], w'.store.jobs[i])
    && (forall id :: id != w.store.jobs[i].id ==> (id in w'.held <==> id in w.held))
    && (forall id :: id != w.store.jobs[i].id && id in w.held ==> w'.held[id] == w.held[id])
    && (forall id :: id != w.store.jobs[i].id && id in w.parsed ==> id in w'.parsed && w'.parsed[id] == w.parsed[id])
  }

  lemma ReplacedJobsFit(w: World, w': World, i: nat)
    requires Invariant(w) && i < |w.store.jobs| && Replaces(w, w', i) && JobFits(w', w'.store.jobs[i])
    ensures Keeps(w, w')
  {
    var jobs, jobs' := w.store.jobs, w'.store.jobs;
    assert forall k :: 0 <= k < |jobs| ==> jobs'[k].id == jobs[k].id;
    forall k | 0 <= k < |jobs'|
      ensures JobFits(w', jobs'[k]) && Moves(jobs[k], jobs'[k])
    {
      if k != i {
        JobFitsFrame(w, w', jobs[k]);
      }
    }
    ReplacedStayFound(w, w', i);
  }

  lemma ReplacedStayFound(w: World, w': World, i: nat)
    requires i < |w.store.jobs| && Replaces(w, w', i)
    requires forall id :: id in w.held ==> FindJob(w.store, id).Some?
    ensures forall id :: id in w'.held ==> FindJob(w'.store, id).Some?
  {
    var jobs := w.store.jobs;
    forall id | id in w'.held
      ensures FindJob(w'.store, id).Some?
    {
      if id == jobs[i].id {
        FoundInPlace(jobs, w'.store, i);
      } else {
        FoundInPlace(jobs, w'.store, JobIndex(jobs, id));
      }
    }
  }

  lemma FoundInPlace(jobs: seq<Job>, s': Store, k: nat)
    requires k < |jobs| == |s'.jobs| && s'.jobs[k].id == jobs[k].id
    ensures FindJob(s', jobs[k].id).Some?
  {
  }

  // The job's recorded artifacts carry over to a status that asks for the same ones.
  lemma ReplacedJobFits(w: World, w': World, i: nat, builts: seq<Built>)
    requires Invariant(w) && i < |w.store.jobs| && Replaces(w, w', i)
    requires TimesFit(w'.store.jobs[i])
    requires w.store.jobs[i].id in w'.held <==> w'.store.jobs[i].status == Running
    requires Progress(w, w.store.jobs[i], builts) && Progress(w', w'.store.jobs[i], builts)
    ensures JobFits(w', w'.store.jobs[i])
  {
    var job, job' := w.store.jobs[i], w'.store.jobs[i];
    var found :| Progress(w, job, found) && Contents(ArtifactsOf(w.store.artifacts, job.id)) == Drafts(job, found);
    assert found == builts;
    assert Drafts(job', builts) == Drafts(job, builts);
    assert FindProfile(w'.store, job'.profileId) == FindProfile(w.store, job.profileId);
  }

  lemma ClaimKeeps(w: World, runner: string, at: int)
    requires Invariant(w)
    ensures Keeps(w, ClaimNext(w, runner, at))
  {
    var i, w' := QueuedIndex(w.store.jobs), ClaimNext(w, runner, at);
    if i < |w.store.jobs| {
      ReplacedJobFits(w, w', i, []);
      ReplacedJobsFit(w, w', i);
    } else {
      StandingStill(w);
    }
  }

  lemma CancelKeeps(w: World, id: int, at: int)
    requires Invariant(w)
    ensures Keeps(w, w.(store := CanceledBy(w.store, id, at).0))
  {
    var i, w' := JobIndex(w.store.jobs, id), w.(store := CanceledBy(w.store, id, at).0);
    if i < |w.store.jobs| && w.store.jobs[i].status == Queued {
      ReplacedJobFits(w, w', i, []);
      ReplacedJobsFit(w, w', i);
    } else {
      StandingStill(w);
    }
  }

  // A worker ends its job as failed with nothing recorded, or as succeeded with everything.
  lemma LetGoKeeps(w: World, id: int, status: JobStatus, logPath: string, message: string, at: int, builts: seq<Built>)
    requires Invariant(w) && id in w.held
    requires status == Failed || status == Succeeded
    requires Progress(w, FindJob(w.store, id).value, builts)
    requires if status == Failed then builts == [] else id in w.parsed && builts == w.parsed[id]
    ensures Keeps(w, LetGo(w, id, status, logPath, message, at))
  {
    var i, w' := JobIndex(w.store.jobs, id), LetGo(w, id, status, logPath, message, at);
    assert JobFits(w, w.store.jobs[i]);
    ReplacedJobFits(w, w', i, builts);
    ReplacedJobsFit(w, w', i);
  }

  // Only the phase of a held job and its parsed output change.
  lemma PhaseKeeps(w: World, id: int, phase: Phase, parsed: map<int, seq<Built>>)
    requires Invariant(w) && id in w.held && !w.held[id].Publishing?
    requires match phase
             case Claimed => false
             case Building => parsed == w.parsed
             case Publishing(result, done) => done == 0 && parsed == w.parsed[id := result.artifacts]
    ensures Keeps(w, World(w.store, w.held[id := phase], parsed))
  {
    var i, w' := JobIndex(w.store.jobs, id), World(w.store, w.held[id := phase], parsed);
    assert JobFits(w, w.store.jobs[i]);
    assert w.store.jobs[i := w.store.jobs[i]] == w.store.jobs;
    ReplacedJobFits(w, w', i, []);
    ReplacedJobsFit(w, w', i);
  }

  lemma LoadKeeps(w: World, id: int, at: int)
    requires Invariant(w) && id in w.held && w.held[id].Claimed?
    ensures Load(w, id, at) == w.(held := w.held[id := Building])
    ensures Keeps(w, Load(w, id, at))
  {
    var i := JobIndex(w.store.jobs, id);
    assert JobFits(w, w.store.jobs[i]);
    PhaseKeeps(w, id, Building, w.parsed);
  }

  lemma BuilderEndedKeeps(w: World, id: int, outcome: Outcome, at: int)
    requires Invariant(w) && id in w.held && w.held[id].Building?
    ensures Keeps(w, BuilderEnded(w, id, outcome, at))
  {
    var i := JobIndex(w.store.jobs, id);
    assert JobFits(w, w.store.jobs[i]);
    if Builds(outcome) {
      var result := outcome.parsed.value;
      PhaseKeeps(w, id, Publishing(result, 0), w.parsed[id := result.artifacts]);
    } else {
      LetGoKeeps(w, id, Failed, FailureOf(outcome).0, FailureOf(outcome).1, at, []);
    }
  }

  // What recording one artifact does: it succeeds.
  lemma RecordedShape(w: World, id: int, at: int, job: Job)
    requires id in w.held && w.held[id].Publishing? && w.held[id].done < |w.held[id].result.artifacts|
    requires FindJob(w.store, id) == Some(job) && job.id == id && 0 < id && job.platform != ""
    ensures var phase := w.held[id];
            var artifact := Draft(job, phase.result.artifacts[phase.done]).(id := w.store.nextID + 1);
            Recorded(w, id, at)
            == World(w.store.(nextID := w.store.nextID + 1, artifacts := w.store.artifacts + [artifact]),
                     w.held[id := phase.(done := phase.done + 1)], w.parsed)
  {
    DraftIsAccepted(w.store, job, w.held[id].result.artifacts[w.held[id].done]);
  }

  lemma RecordedKeeps(w: World, id: int, at: int)
    requires Invariant(w) && id in w.held && w.held[id].Publishing? && w.held[id].done < |w.held[id].result.artifacts|
    ensures Keeps(w, Recorded(w, id, at)) && Recorded(w, id, at).store.jobs == w.store.jobs
  {
    var phase, i := w.held[id], JobIndex(w.store.jobs, id);
    var job := w.store.jobs[i];
    assert JobFits(w, job);
    RecordedShape(w, id, at, job);
    var artifact := Draft(job, phase.result.artifacts[phase.done]).(id := w.store.nextID + 1);
    AppendedKeeps(w, Recorded(w, id, at), job, phase, artifact);
  }

  lemma AppendedKeeps(w: World, w': World, job: Job, phase: Phase, artifact: Artifact)
    requires Invariant(w) && job in w.store.jobs && job.id in w.held && w.held[job.id] == phase
    requires phase.Publishing? && phase.done < |phase.result.artifacts|
    requires artifact.(id := 0) == Draft(job, phase.result.artifacts[phase.done])
    requires w' == World(w.store.(nextID := w.store.nextID + 1, artifacts := w.store.artifacts + [artifact]),
                         w.held[job.id := phase.(done := phase.done + 1)], w.parsed)
    ensures Keeps(w, w')
  {
    assert w'.store.jobs == w.store.jobs;
    forall k | 0 <= k < |w.store.jobs|
      ensures JobFits(w', w.store.jobs[k])
    {
      assert w.store.jobs[k].id == job.id ==> w.store.jobs[k] == job;
      AppendedFits(w, w', job, phase, artifact, w.store.jobs[k]);
    }
    HeldStayFound(w, w'.store);
    assert JobFits(w, job) && artifact.buildJobId == job.id;
  }

  lemma AppendedFits(w: World, w': World, job: Job, phase: Phase, artifact: Artifact, other: Job)
    requires JobFits(w, job) && JobFits(w, other) && (other.id == job.id ==> other == job)
    requires job.id in w.held && w.held[job.id] == phase
    requires phase.Publishing? && phase.done < |phase.result.artifacts|
    requires artifact.(id := 0) == Draft(job, phase.result.artifacts[phase.done])
    requires w' == World(w.store.(nextID := w.store.nextID + 1, artifacts := w.store.artifacts + [artifact]),
                         w.held[job.id := phase.(done := phase.done + 1)], w.parsed)
    ensures JobFits(w', other)
  {
    ArtifactsAppend(w.store.artifacts, artifact, other.id);
    assert FindProfile(w'.store, other.profileId) == FindProfile(w.store, other.profileId);
    if other == job {
      RecordedFits(w, w', job, phase, artifact);
    } else {
      JobFitsFrame(w, w', other);
    }
  }

  lemma RecordedFits(w: World, w': World, job: Job, phase: Phase, artifact: Artifact)
    requires JobFits(w, job) && job.id in w.held && w.held[job.id] == phase
    requires phase.Publishing? && phase.done < |phase.result.artifacts|
    requires artifact.(id := 0) == Draft(job, phase.result.artifacts[phase.done])
    requires ArtifactsOf(w'.store.artifacts, job.id) == ArtifactsOf(w.store.artifacts, job.id) + [artifact]
    requires w'.held == w.held[job.id := phase.(done := phase.done + 1)] && w'.parsed == w.parsed
    requires w.store.nextID <= w'.store.nextID && FindProfile(w'.store, job.profileId).Some?
    ensures JobFits(w', job)
  {
    var n := phase.done;
    ContentsGrow(ArtifactsOf(w.store.artifacts, job.id), artifact);
    DraftsGrow(job, phase.result.artifacts, n);
    assert Progress(w, job, phase.result.artifacts[..n]);
    assert Progress(w', job, phase.result.artifacts[..n + 1]);
  }

  lemma EnqueueKeeps(w: World, profileId: int, platform: string, at: int)
    requires Invariant(w) && FindProfile(w.store, profileId).Some? && platform in SUPPORTED_PLATFORMS
    ensures Keeps(w, w.(store := Enqueued(w.store, profileId, platform, at).0))
  {
    var s' := Enqueued(w.store, profileId, platform, at).0;
    if s' != w.store {
      var job := NewJob(w.store.nextID + 1, PendingDraft(profileId, platform), at);
      assert s' == w.store.(nextID := w.store.nextID + 1, jobs := w.store.jobs + [job]);
      AddedKeeps(w, w.(store := s'), job);
    } else {
      StandingStill(w);
    }
  }

  lemma AddedKeeps(w: World, w': World, job: Job)
    requires Invariant(w) && job.id == w.store.nextID + 1 && job.platform in SUPPORTED_PLATFORMS
    requires job.status == Queued && job.startedAt == None == job.finishedAt
             && FindProfile(w.store, job.profileId).Some?
    requires w' == w.(store := w.store.(nextID := w.store.nextID + 1, jobs := w.store.jobs + [job]))
    ensures Keeps(w, w')
  {
    var jobs, jobs' := w.store.jobs, w'.store.jobs;
    forall k | 0 <= k < |jobs'|
      ensures JobFits(w', jobs'[k])
      ensures k < |jobs| ==> jobs'[k] == jobs[k] && jobs[k].id < job.id
    {
      if k < |jobs| {
        JobFitsFrame(w, w', jobs[k]);
      } else {
        AddedFits(w, w', job);
      }
    }
    HeldStayFound(w, w'.store);
  }

  lemma AddedFits(w: World, w': World, job: Job)
    requires Invariant(w) && job.id == w.store.nextID + 1 && job.platform in SUPPORTED_PLATFORMS
    requires job.status == Queued && job.startedAt == None == job.finishedAt
             && FindProfile(w.store, job.profileId).Some?
    requires w' == w.(store := w.store.(nextID := w.store.nextID + 1, jobs := w.store.jobs + [job]))
    ensures JobFits(w', job)
  {
    NoArtifactsYet(w.store.artifacts, job.id);
    assert Progress(w', job, []) && Contents([]) == Drafts(job, []);
    forall id | id in w.held
      ensures id <= w.store.nextID
    {
      assert JobFits(w, w.store.jobs[JobIndex(w.store.jobs, id)]);
    }
  }

  lemma HeldStayFound(w: World, s': Store)
    requires forall id :: id in w.held ==> FindJob(w.store, id).Some?
    requires w.store.jobs <= s'.jobs
    ensures forall id :: id in w.held ==> FindJob(s', id).Some?
  {
    forall id | id in w.held
      ensures FindJob(s', id).Some?
    {
      var i := JobIndex(w.store.jobs, id);
      assert s'.jobs[i].id == id;
    }
  }

  // Steps on profiles that keep every profile some job needs.
  lemma ProfilesKeep(w: World, s': Store)
    requires Invariant(w)
    requires s'.jobs == w.store.jobs && s'.artifacts == w.store.artifacts && w.store.nextID <= s'.nextID
    requires forall i :: 0 <= i < |s'.profiles| ==> 0 < s'.profiles[i].id
    requires forall i :: 0 <= i < |w.store.jobs| ==> FindProfile(s', w.store.jobs[i].profileId).Some?
    ensures Keeps(w, w.(store := s'))
  {
    var w' := w.(store := s');
    forall i | 0 <= i < |s'.jobs|
      ensures JobFits(w', s'.jobs[i])
    {
      JobFitsFrame(w, w', w.store.jobs[i]);
    }
    HeldStayFound(w, s');
  }

  // A profile that has jobs survives every step.
  lemma ProfileSurvives(w: World, e: Event, profileId: int)
    requires e.NewProfile? || e.EditProfile? || e.RemoveProfile? || e.Elsewhere?
    requires FindProfile(w.store, profileId).Some? && HasJobs(w.store.jobs, profileId)
    ensures FindProfile(Next(w, e).store, profileId).Some?
  {
    var s, s' := w.store, Next(w, e).store;
    var k := ProfileIndex(s.profiles, profileId);
    if e.RemoveProfile? {
      RemovalSparesProfilesInUse(s, e.id, profileId);
    } else {
      ProfileStored(s', profileId);
      assert s'.profiles[k].id == profileId;
    }
  }

  lemma RemovalSparesProfilesInUse(s: Store, id: int, profileId: int)
    requires FindProfile(s, profileId).Some? && HasJobs(s.jobs, profileId)
    ensures FindProfile(Removed(s, id).0, profileId).Some?
  {
    var profiles, k, r := s.profiles, ProfileIndex(s.profiles, profileId), ProfileIndex(s.profiles, id);
    if !HasJobs(s.jobs, id) && r < |profiles| {
      var s' := s.(profiles := profiles[..r] + profiles[r + 1..]);
      assert Removed(s, id).0 == s';
      ProfileStored(s', profileId);
      assert s'.profiles[if k < r then k else k - 1] == profiles[k];
    } else {
      assert Removed(s, id).0 == s;
    }
  }

  lemma ProfileEventShape(w: World, e: Event)
    requires e.NewProfile? || e.EditProfile? || e.RemoveProfile? || e.Elsewhere?
    requires 0 <= w.store.nextID && forall i :: 0 <= i < |w.store.profiles| ==> 0 < w.store.profiles[i].id
    ensures var s' := Next(w, e).store;
            && Next(w, e) == w.(store := s')
            && s'.jobs == w.store.jobs && s'.artifacts == w.store.artifacts && w.store.nextID <= s'.nextID
            && forall i :: 0 <= i < |s'.profiles| ==> 0 < s'.profiles[i].id
  {
  }

  lemma ProfileEventKeeps(w: World, e: Event)
    requires Invariant(w) && (e.NewProfile? || e.EditProfile? || e.RemoveProfile? || e.Elsewhere?)
    ensures Keeps(w, Next(w, e))
  {
    ProfileEventShape(w, e);
    forall i | 0 <= i < |w.store.jobs|
      ensures FindProfile(Next(w, e).store, w.store.jobs[i].profileId).Some?
    {
      assert JobFits(w, w.store.jobs[i]);
      ProfileSurvives(w, e, w.store.jobs[i].profileId);
    }
    ProfilesKeep(w, Next(w, e).store);
  }

  lemma SubmitKeeps(w: World, id: int, platform: string, at: int)
    requires Invariant(w)
    ensures Keeps(w, w.(store := Submitted(w.store, id, platform, at).0))
  {
    StandingStill(w);
    if platform in SUPPORTED_PLATFORMS && FindProfile(w.store, id).Some? {
      EnqueueKeeps(w, id, platform, at);
    }
  }

  lemma RetryKeeps(w: World, id: int, at: int)
    requires Invariant(w)
    ensures Keeps(w, w.(store := Retried(w.store, id, at).0))
  {
    StandingStill(w);
    var i := JobIndex(w.store.jobs, id);
    if i < |w.store.jobs| {
      assert JobFits(w, w.store.jobs[i]);
      EnqueueKeeps(w, w.store.jobs[i].profileId, w.store.jobs[i].platform, at);
    }
  }

  lemma CompletedKeeps(w: World, id: int, at: int)
    requires Invariant(w) && AtComplete(w, id)
    ensures Keeps(w, Completed(w, id, at))
  {
    var i, result := JobIndex(w.store.jobs, id), w.held[id].result;
    assert JobFits(w, w.store.jobs[i]);
    assert result.artifacts[..|result.artifacts|] == result.artifacts;
    LetGoKeeps(w, id, Succeeded, result.buildLog, "", at, result.artifacts);
  }

  // Event by event. A step of a worker does nothing if its program has not reached it.

  lemma SubmitStep(w: World, e: Event)
    requires Invariant(w) && e.Submit?
    ensures Keeps(w, Next(w, e))
  {
    SubmitKeeps(w, e.id, e.platform, e.at);
  }

  lemma RetryStep(w: World, e: Event)
    requires Invariant(w) && e.Retry?
    ensures Keeps(w, Next(w, e))
  {
    RetryKeeps(w, e.id, e.at);
  }

  lemma CancelStep(w: World, e: Event)
    requires Invariant(w) && e.Cancel?
    ensures Keeps(w, Next(w, e))
  {
    CancelKeeps(w, e.id, e.at);
  }

  lemma ClaimStep(w: World, e: Event)
    requires Invariant(w) && e.Claim?
    ensures Keeps(w, Next(w, e))
  {
    ClaimKeeps(w, e.runner, e.at);
  }

  // What a worker is about to do.
  predicate AtLoad(w: World, id: int) { id in w.held && w.held[id].Claimed? }

  predicate AtBuilder(w: World, id: int) { id in w.held && w.held[id].Building? }

  predicate AtRecord(w: World, id: int) {
    id in w.held && w.held[id].Publishing? && w.held[id].done < |w.held[id].result.artifacts|
  }

  predicate AtComplete(w: World, id: int) {
    id in w.held && w.held[id].Publishing? && w.held[id].done == |w.held[id].result.artifacts|
  }

  function Completed(w: World, id: int, at: int): World
    requires AtComplete(w, id)
  {
    LetGo(w, id, Succeeded, w.held[id].result.buildLog, "", at)
  }

  lemma WorkerStepIs(w: World, e: Event)
    ensures e.LoadProfile? ==> Next(w, e) == if AtLoad(w, e.id) then Load(w, e.id, e.at) else w
    ensures e.BuilderEnds? ==> Next(w, e) == if AtBuilder(w, e.id) then BuilderEnded(w, e.id, e.outcome, e.at) else w
    ensures e.RecordNext? ==> Next(w, e) == if AtRecord(w, e.id) then Recorded(w, e.id, e.at) else w
    ensures e.Complete? ==> Next(w, e) == if AtComplete(w, e.id) then Completed(w, e.id, e.at) else w
  {
  }

  lemma LoadStep(w: World, e: Event)
    requires Invariant(w) && e.LoadProfile?
    ensures Keeps(w, Next(w, e))
  {
    WorkerStepIs(w, e);
    if AtLoad(w, e.id) {
      LoadKeeps(w, e.id, e.at);
    } else {
      StandingStill(w);
    }
  }

  lemma BuilderStep(w: World, e: Event)
    requires Invariant(w) && e.BuilderEnds?
    ensures Keeps(w, Next(w, e))
  {
    WorkerStepIs(w, e);
    if AtBuilder(w, e.id) {
      BuilderEndedKeeps(w, e.id, e.outcome, e.at);
    } else {
      StandingStill(w);
    }
  }

  lemma RecordStep(w: World, e: Event)
    requires Invariant(w) && e.RecordNext?
    ensures Keeps(w, Next(w, e))
  {
    WorkerStepIs(w, e);
    if AtRecord(w, e.id) {
      RecordedKeeps(w, e.id, e.at);
    } else {
      StandingStill(w);
    }
  }

  lemma CompleteStep(w: World, e: Event)
    requires Invariant(w) && e.Complete?
    ensures Keeps(w, Next(w, e))
  {
    WorkerStepIs(w, e);
    if AtComplete(w, e.id) {
      CompletedKeeps(w, e.id, e.at);
    } else {
      StandingStill(w);
    }
  }

  lemma NextKeeps(w: World, e: Event)
    requires Invariant(w)
    ensures Keeps(w, Next(w, e))
  {
    match e
    case Submit(_, _, _) => SubmitStep(w, e);
    case Retry(_, _) => RetryStep(w, e);
    case Cancel(_, _) => CancelStep(w, e);
    case Claim(_, _) => ClaimStep(w, e);
    case LoadProfile(_, _) => LoadStep(w, e);
    case BuilderEnds(_, _, _) => BuilderStep(w, e);
    case RecordNext(_, _) => RecordStep(w, e);
    case Complete(_, _) => CompleteStep(w, e);
    case _ => ProfileEventKeeps(w, e);
  }

  lemma NextKeepsInvariant(w: World, e: Event)
    requires Invariant(w)
    ensures Invariant(Next(w, e)) && AllMove(w.store.jobs, Next(w, e).store.jobs)
  {
    NextKeeps(w, e);
    assert Keeps(w, Next(w, e));
  }

  lemma {:induction false} RunKeepsInvariant(nextID: nat, events: seq<Event>)
    ensures Invariant(Run(nextID, events))
  {
    if events != [] {
      RunKeepsInvariant(nextID, Front(events));
      NextKeepsInvariant(Run(nextID, Front(events)), Last(events));
    }
  }

  // ------------------------------------------------------------------------
  // The theorems, over every run from an empty store.

  // Times match statuses, and every job's profile is stored, so a worker always finds it.
  lemma EveryJobIsWellFormed(nextID: nat, events: seq<Event>, job: Job)
    requires job in Run(nextID, events).store.jobs
    ensures TimesFit(job)
    ensures FindProfile(Run(nextID, events).store, job.profileId).Some?
    ensures job.status == Running <==> job.id in Run(nextID, events).held
  {
    RunKeepsInvariant(nextID, events);
    assert JobFits(Run(nextID, events), job);
  }

  // A succeeded job has exactly the artifacts its builder's output listed, in order; a
  // failed, canceled or waiting one has none.
  lemma ArtifactsMatchTheOutput(nextID: nat, events: seq<Event>, job: Job)
    requires job in Run(nextID, events).store.jobs
    ensures var w := Run(nextID, events);
            var recorded := Contents(ArtifactsOf(w.store.artifacts, job.id));
            && (job.status == Succeeded ==> job.id in w.parsed && recorded == Drafts(job, w.parsed[job.id]))
            && (job.status == Queued || job.status == Failed || job.status == Canceled ==> recorded == [])
  {
    RunKeepsInvariant(nextID, events);
    assert JobFits(Run(nextID, events), job);
  }

  // The branch that fails a claimed job for want of its profile is never taken.
  lemma ProfileIsNeverMissing(nextID: nat, events: seq<Event>, id: int, at: int)
    requires var w := Run(nextID, events); id in w.held && w.held[id].Claimed?
    ensures var w := Run(nextID, events);
            Next(w, LoadProfile(id, at)) == w.(held := w.held[id := Building])
  {
    RunKeepsInvariant(nextID, events);
    LoadKeeps(Run(nextID, events), id, at);
  }

  predicate Terminal(status: JobStatus) {
    status == Succeeded || status == Failed || status == Canceled
  }

  // Queued to running to succeeded or failed, or queued to canceled; a finished job is
  // never written again.
  predicate Progressed(before: Job, after: Job) {
    && after.id == before.id && after.profileId == before.profileId && after.platform == before.platform
    && after.createdAt == before.createdAt
    && (Terminal(before.status) ==> after == before)
    && (before.status == Running ==> after.status == Running || after.status == Succeeded || after.status == Failed)
  }

  // The jobs before step n of the run, or after all of it.
  function JobsAt(nextID: nat, events: seq<Event>, n: nat): seq<Job>
    requires n <= |events|
  {
    Run(nextID, events[..n]).store.jobs
  }

  lemma OneMoreEvent(nextID: nat, events: seq<Event>, n: nat)
    requires n < |events|
    ensures Run(nextID, events[..n + 1]) == Next(Run(nextID, events[..n]), events[n])
  {
    assert Front(events[..n + 1]) == events[..n];
  }

  lemma JobMoves(nextID: nat, events: seq<Event>, n: nat, i: nat)
    requires n < |events| && i < |JobsAt(nextID, events, n)|
    ensures i < |JobsAt(nextID, events, n + 1)|
    ensures Moves(JobsAt(nextID, events, n)[i], JobsAt(nextID, events, n + 1)[i])
  {
    OneMoreEvent(nextID, events, n);
    RunKeepsInvariant(nextID, events[..n]);
    NextKeepsInvariant(Run(nextID, events[..n]), events[n]);
  }

  lemma ProgressedFurther(a: Job, b: Job, c: Job)
    requires Progressed(a, b) && Moves(b, c)
    ensures Progressed(a, c)
  {
  }

  lemma {:induction false} JobProgresses(nextID: nat, events: seq<Event>, n: nat, m: nat, i: nat)
    requires n <= m <= |events| && i < |JobsAt(nextID, events, n)|
    ensures i < |JobsAt(nextID, events, m)|
    ensures Progressed(JobsAt(nextID, events, n)[i], JobsAt(nextID, events, m)[i])
    decreases m
  {
    if n < m {
      JobProgresses(nextID, events, n, m - 1, i);
      JobMoves(nextID, events, m - 1, i);
      ProgressedFurther(JobsAt(nextID, events, n)[i], JobsAt(nextID, events, m - 1)[i], JobsAt(nextID, events, m)[i]);
    }
  }

  lemma JobsOnlyProgress(nextID: nat, events: seq<Event>, n: nat, i: nat)
    requires n <= |events| && i < |JobsAt(nextID, events, n)|
    ensures i < |Run(nextID, events).store.jobs|
    ensures Progressed(JobsAt(nextID, events, n)[i], Run(nextID, events).store.jobs[i])
  {
    JobProgresses(nextID, events, n, |events|, i);
    assert events[..|events|] == events;
  }

  // ------------------------------------------------------------------------
  // Taken without interruption, a worker's steps are one call of RunOnce.

  function RecordAll(w: World, id: int, at: int, n: nat): World {
    if n == 0 then w else Next(RecordAll(w, id, at, n - 1), RecordNext(id, at))
  }

  // From the builder's start to the end of the job.
  function Ending(w: World, id: int, outcome: Outcome, at: int): World {
    var built := Next(w, BuilderEnds(id, outcome, at));
    if Builds(outcome)
    then Next(RecordAll(built, id, at, |outcome.parsed.value.artifacts|), Complete(id, at))
    else built
  }

  function Uninterrupted(w: World, runner: string, outcome: Outcome, claimedAt: int, finishedAt: int): World {
    match ClaimJob(w.store, runner, claimedAt)
    case Err(_) => w
    case Ok((_, job)) =>
      Ending(Next(Next(w, Claim(runner, claimedAt)), LoadProfile(job.id, finishedAt)), job.id, outcome, finishedAt)
  }

  // Publishing one artifact more.
  lemma PublishStep(s: Store, job: Job, builts: seq<Built>, n: nat)
    requires 0 < n <= |builts| && 0 < job.id && job.platform != ""
    ensures var before := Publish(s, job, builts[..n - 1]).0;
            && before.jobs == s.jobs
            && Publish(s, job, builts[..n]).0
               == before.(nextID := before.nextID + 1,
                          artifacts := before.artifacts + [Draft(job, builts[n - 1]).(id := before.nextID + 1)])
  {
    var front := builts[..n - 1];
    assert Front(builts[..n]) == front && Last(builts[..n]) == builts[n - 1];
    PublishSucceeds(s, job, front);
    DraftIsAccepted(Publish(s, job, front).0, job, builts[n - 1]);
  }

  // The world after recording the first n artifacts of a job.
  function Partway(w: World, job: Job, result: RunnerResult, n: nat): World
    requires n <= |result.artifacts|
  {
    World(Publish(w.store, job, result.artifacts[..n]).0, w.held[job.id := Publishing(result, n)], w.parsed)
  }

  lemma RecordNextAdvances(w: World, job: Job, result: RunnerResult, at: int, n: nat)
    requires 0 < n <= |result.artifacts|
    requires FindJob(w.store, job.id) == Some(job) && 0 < job.id && job.platform != ""
    ensures Next(Partway(w, job, result, n - 1), RecordNext(job.id, at)) == Partway(w, job, result, n)
  {
    PublishStep(w.store, job, result.artifacts, n);
    RecordsTheNext(Partway(w, job, result, n - 1), Partway(w, job, result, n), job, result, at, n);
  }

  lemma RecordsTheNext(before: World, after: World, job: Job, result: RunnerResult, at: int, n: nat)
    requires 0 < n <= |result.artifacts|
    requires job.id in before.held && before.held[job.id] == Publishing(result, n - 1)
    requires FindJob(before.store, job.id) == Some(job) && 0 < job.id && job.platform != ""
    requires after.held == before.held[job.id := Publishing(result, n)] && after.parsed == before.parsed
    requires var artifact := Draft(job, result.artifacts[n - 1]).(id := before.store.nextID + 1);
             after.store == before.store.(nextID := before.store.nextID + 1,
                                          artifacts := before.store.artifacts + [artifact])
    ensures Next(before, RecordNext(job.id, at)) == after
  {
    WorkerStepIs(before, RecordNext(job.id, at));
    RecordedShape(before, job.id, at, job);
  }

  lemma {:induction false} RecordAllPublishes(w: World, job: Job, result: RunnerResult, at: int, n: nat)
    requires job.id in w.held && w.held[job.id] == Publishing(result, 0) && n <= |result.artifacts|
    requires FindJob(w.store, job.id) == Some(job) && 0 < job.id && job.platform != ""
    ensures RecordAll(w, job.id, at, n) == Partway(w, job, result, n)
  {
    if n > 0 {
      RecordAllPublishes(w, job, result, at, n - 1);
      RecordNextAdvances(w, job, result, at, n);
    } else {
      assert w.held[job.id := Publishing(result, 0)] == w.held;
    }
  }

  lemma FailureSettlesTheSame(w: World, job: Job, outcome: Outcome, at: int)
    requires job.id in w.held && w.held[job.id] == Building && !Builds(outcome)
    requires FindJob(w.store, job.id) == Some(job)
    ensures Ending(w, job.id, outcome, at).store == Settled(w.store, job, outcome, at).0
  {
    var (log, message) := FailureOf(outcome);
    assert FinishJob(w.store, job.id, Failed, log, message, at).Ok?;
    assert Ending(w, job.id, outcome, at) == LetGo(w, job.id, Failed, log, message, at);
  }

  // The worker's steps after the builder end in completing the job it has published for.
  lemma EndingCompletes(w: World, job: Job, outcome: Outcome, at: int)
    requires job.id in w.held && w.held[job.id] == Building && Builds(outcome)
    requires FindJob(w.store, job.id) == Some(job) && 0 < job.id && job.platform != ""
    ensures var result := outcome.parsed.value;
            var published := Publish(w.store, job, result.artifacts).0;
            Ending(w, job.id, outcome, at).store
            == LetGo(w.(store := published), job.id, Succeeded, result.buildLog, "", at).store
  {
    var result := outcome.parsed.value;
    var built := World(w.store, w.held[job.id := Publishing(result, 0)], w.parsed[job.id := result.artifacts]);
    assert Next(w, BuilderEnds(job.id, outcome, at)) == built;
    RecordAllPublishes(built, job, result, at, |result.artifacts|);
    assert result.artifacts[..|result.artifacts|] == result.artifacts;
    CompletesPublished(Partway(built, job, result, |result.artifacts|), w, job.id, result, at);
  }

  lemma CompletesPublished(published: World, w: World, id: int, result: RunnerResult, at: int)
    requires id in published.held && published.held[id] == Publishing(result, |result.artifacts|)
    ensures Next(published, Complete(id, at)).store
            == LetGo(w.(store := published.store), id, Succeeded, result.buildLog, "", at).store
  {
  }

  // RunOnce completes it in the same store.
  lemma SettledCompletes(w: World, job: Job, outcome: Outcome, at: int)
    requires Builds(outcome) && FindJob(w.store, job.id) == Some(job) && 0 < job.id && job.platform != ""
    ensures var result := outcome.parsed.value;
            var published := Publish(w.store, job, result.artifacts).0;
            Settled(w.store, job, outcome, at).0
            == LetGo(w.(store := published), job.id, Succeeded, result.buildLog, "", at).store
  {
    PublishSucceeds(w.store, job, outcome.parsed.value.artifacts);
  }

  lemma SuccessSettlesTheSame(w: World, job: Job, outcome: Outcome, at: int)
    requires job.id in w.held && w.held[job.id] == Building && Builds(outcome)
    requires FindJob(w.store, job.id) == Some(job) && 0 < job.id && job.platform != ""
    ensures Ending(w, job.id, outcome, at).store == Settled(w.store, job, outcome, at).0
  {
    EndingCompletes(w, job, outcome, at);
    SettledCompletes(w, job, outcome, at);
  }

  // A claim, in a world where a job is waiting.
  lemma ClaimedJob(w: World, runner: string, at: int) returns (claimed: World, job: Job)
    requires Invariant(w) && QueuedIndex(w.store.jobs) < |w.store.jobs|
    ensures claimed == ClaimNext(w, runner, at) && ClaimJob(w.store, runner, at) == Ok((claimed.store, job))
    ensures Invariant(claimed) && job in claimed.store.jobs && FindJob(claimed.store, job.id) == Some(job)
    ensures job.id in claimed.held && claimed.held[job.id] == Claimed
  {
    claimed := ClaimNext(w, runner, at);
    job := ClaimJob(w.store, runner, at).value.1;
    ClaimKeeps(w, runner, at);
    JobFoundAt(claimed.store, QueuedIndex(w.store.jobs));
  }

  // The claim and the loading of the profile both succeed.
  lemma ClaimAndLoad(w: World, runner: string, claimedAt: int, at: int) returns (loaded: World, job: Job)
    requires Invariant(w) && QueuedIndex(w.store.jobs) < |w.store.jobs|
    ensures ClaimJob(w.store, runner, claimedAt) == Ok((loaded.store, job))
    ensures Next(ClaimNext(w, runner, claimedAt), LoadProfile(job.id, at)) == loaded
    ensures job.id in loaded.held && loaded.held[job.id] == Building && FindJob(loaded.store, job.id) == Some(job)
    ensures 0 < job.id && job.platform != "" && FindProfile(loaded.store, job.profileId).Some?
  {
    var claimed;
    claimed, job := ClaimedJob(w, runner, claimedAt);
    LoadKeeps(claimed, job.id, at);
    assert JobFits(claimed, job);
    loaded := claimed.(held := claimed.held[job.id := Building]);
  }

  // Once the claim and the profile are there, both go on from the same store.
  lemma ClaimThenSettle(
      w: World, loaded: World, job: Job, runner: string, outcome: Outcome, claimedAt: int, finishedAt: int)
    requires ClaimJob(w.store, runner, claimedAt) == Ok((loaded.store, job))
    requires Next(ClaimNext(w, runner, claimedAt), LoadProfile(job.id, finishedAt)) == loaded
    requires FindProfile(loaded.store, job.profileId).Some?
    ensures Uninterrupted(w, runner, outcome, claimedAt, finishedAt) == Ending(loaded, job.id, outcome, finishedAt)
    ensures NextRun(w.store, runner, outcome, claimedAt, finishedAt) == Settled(loaded.store, job, outcome, finishedAt)
  {
  }

  lemma UninterruptedIsRunOnce(w: World, runner: string, outcome: Outcome, claimedAt: int, finishedAt: int)
    requires Invariant(w)
    ensures Uninterrupted(w, runner, outcome, claimedAt, finishedAt).store
            == NextRun(w.store, runner, outcome, claimedAt, finishedAt).0
  {
    if QueuedIndex(w.store.jobs) < |w.store.jobs| {
      var loaded, job := ClaimAndLoad(w, runner, claimedAt, finishedAt);
      ClaimThenSettle(w, loaded, job, runner, outcome, claimedAt, finishedAt);
      if Builds(outcome) {
        SuccessSettlesTheSame(loaded, job, outcome, finishedAt);
      } else {
        FailureSettlesTheSame(loaded, job, outcome, finishedAt);
      }
    }
  }

  // Every reachable store is one a run of the worker can rely on.
  lemma ReachableStoresAreRunnable(nextID: nat, events: seq<Event>)
    ensures Runnable(Run(nextID, events).store)
  {
    var w := Run(nextID, events);
    RunKeepsInvariant(nextID, events);
    forall i | 0 <= i < |w.store.jobs|
      ensures var job := w.store.jobs[i];
              && 0 < job.id && job.platform != "" && FindProfile(w.store, job.profileId).Some?
              && (job.status == Queued ==> ArtifactsOf(w.store.artifacts, job.id) == [])
    {
      assert JobFits(w, w.store.jobs[i]);
      var recorded := ArtifactsOf(w.store.artifacts, w.store.jobs[i].id);
      assert w.store.jobs[i].status == Queued ==> |Contents(recorded)| == 0;
    }
  }
}
