// The guards of api/internal/builds/handler.go around the job store.
module BuildHandlers {
  import opened Wrappers
  import opened BuildStore

  const SUPPORTED_PLATFORMS := ["windows_x64", "macos_x64", "macos_arm64", "android_arm64", "ios_arm64"]

  // The response codes that matter for the state of a job.
  datatype Reply =
    | Created(job: Job) | Updated(job: Job) | Deleted
    | UnsupportedPlatform | ProfileNotFound | PlatformNotEnabled | InvalidJob
    | AuditWriteFailed | JobNotFound | NotCancelable | NotRetryable | ProfileHasJobs | CancelFailed | DeleteFailed

  function PendingDraft(profileId: int, platform: string): JobDraft {
    JobDraft(profileId, platform, Some(Queued), "pending", "", "", None, None)
  }

  function Enqueued(s: Store, profileId: int, platform: string, now: int): (Store, Reply) {
    match CreateJob(s, PendingDraft(profileId, platform), now)
    case Ok((next, job)) => (next, Created(job))
    case Err(_) => (s, InvalidJob)
  }

  function Submitted(s: Store, profileId: int, platform: string, now: int): (Store, Reply) {
    if platform !in SUPPORTED_PLATFORMS then (s, UnsupportedPlatform)
    else
      match FindProfile(s, profileId)
      case None => (s, ProfileNotFound)
      case Some(profile) =>
        if platform !in profile.platforms then (s, PlatformNotEnabled) else Enqueued(s, profileId, platform, now)
  }

  function CanceledBy(s: Store, id: int, at: int): (Store, Reply) {
    match FindJob(s, id)
    case None => (s, JobNotFound)
    case Some(job) =>
      if job.status != Queued then (s, NotCancelable)
      else
        match FinishJob(s, id, Canceled, "", "canceled by administrator", at)
        case Ok((next, canceled)) => (next, Updated(canceled))
        case Err(_) => (s, CancelFailed)
  }

  function Retried(s: Store, id: int, now: int): (Store, Reply) {
    match FindJob(s, id)
    case None => (s, JobNotFound)
    case Some(job) =>
      if job.status == Queued || job.status == Running then (s, NotRetryable)
      else if FindProfile(s, job.profileId).None? then (s, ProfileNotFound)
      else Enqueued(s, job.profileId, job.platform, now)
  }

  function Removed(s: Store, id: int): (Store, Reply) {
    match DeleteProfile(s, id)
    case Ok(next) => (next, Deleted)
    case Err(NotFound) => (s, ProfileNotFound)
    case Err(Conflict) => (s, ProfileHasJobs)
    case Err(Invalid) => (s, DeleteFailed)
  }

  // A change is made whether or not it can then be entered in the audit log; the reply tells.
  function Audited(outcome: (Store, Reply), audited: bool): (Store, Reply) {
    if (outcome.1.Created? || outcome.1.Deleted?) && !audited then (outcome.0, AuditWriteFailed) else outcome
  }

  // Each method is one handler, taken as a single step; `audited` says whether the audit log
  // accepts the entry.
  class Handler {
    const repo: Memory

    constructor (repo: Memory)
      ensures this.repo == repo
    {
      this.repo := repo;
    }

    method CreateJobForProfile(profileId: int, platform: string, now: int, audited: bool) returns (reply: Reply)
      modifies repo
      ensures (repo.State(), reply) == Audited(Submitted(old(repo.State()), profileId, platform, now), audited)
    {
      if platform !in SUPPORTED_PLATFORMS {
        return UnsupportedPlatform;
      }
      var profile := repo.FindBuildProfileByID(profileId);
      if profile.None? {
        return ProfileNotFound;
      }
      if platform !in profile.value.platforms {
        return PlatformNotEnabled;
      }
      var created := repo.CreateBuildJob(
        JobDraft(profileId, platform, Some(Queued), "pending", "", "", None, None), now);
      if created.Err? {
        return InvalidJob;
      }
      reply := if audited then Created(created.value) else AuditWriteFailed;
    }

    method CancelJob(id: int, at: int) returns (reply: Reply)
      modifies repo
      ensures (repo.State(), reply) == CanceledBy(old(repo.State()), id, at)
    {
      var job := repo.FindBuildJobByID(id);
      if job.None? {
        return JobNotFound;
      }
      if job.value.status != Queued {
        return NotCancelable;
      }
      var canceled := repo.CancelBuildJob(id, "canceled by administrator", at);
      reply := if canceled.Ok? then Updated(canceled.value) else CancelFailed;
    }

    method RetryJob(id: int, now: int, audited: bool) returns (reply: Reply)
      modifies repo
      ensures (repo.State(), reply) == Audited(Retried(old(repo.State()), id, now), audited)
    {
      var job := repo.FindBuildJobByID(id);
      if job.None? {
        return JobNotFound;
      }
      if job.value.status == Queued || job.value.status == Running {
        return NotRetryable;
      }
      var profile := repo.FindBuildProfileByID(job.value.profileId);
      if profile.None? {
        return ProfileNotFound;
      }
      var created := repo.CreateBuildJob(
        JobDraft(job.value.profileId, job.value.platform, Some(Queued), "pending", "", "", None, None), now);
      if created.Err? {
        return InvalidJob;
      }
      reply := if audited then Created(created.value) else AuditWriteFailed;
    }

    method DeleteProfile(id: int, audited: bool) returns (reply: Reply)
      modifies repo
      ensures (repo.State(), reply) == Audited(Removed(old(repo.State()), id), audited)
    {
      var deleted := repo.DeleteBuildProfile(id);
      match deleted {
        case Ok(_) => reply := if audited then Deleted else AuditWriteFailed;
        case Err(NotFound) => reply := ProfileNotFound;
        case Err(Conflict) => reply := ProfileHasJobs;
        case Err(Invalid) => reply := DeleteFailed;
      }
    }
  }

  // ------------------------------------------------------------------------
  // When the handlers act, over the records themselves.

  predicate IsSupported(platform: string) {
    || platform == "windows_x64" || platform == "macos_x64" || platform == "macos_arm64"
    || platform == "android_arm64" || platform == "ios_arm64"
  }

  // The store has one more job, waiting for this profile and platform.
  predicate Queues(s: Store, next: Store, reply: Reply, profileId: int, platform: string, now: int) {
    && reply.Created? && next == s.(nextID := s.nextID + 1, jobs := s.jobs + [reply.job])
    && reply.job == Job(s.nextID + 1, profileId, platform, Queued, "pending", "", "", now, None, None)
  }

  // A job is created exactly when the platform is supported and the first profile with the
  // identifier enables it; otherwise nothing changes and the reply names what was wanting.
  lemma SubmittedExactly(s: Store, profileId: int, platform: string, now: int)
    ensures var (next, reply) := Submitted(s, profileId, platform, now);
            && (reply.Created? <==>
                  && IsSupported(platform) && 0 < profileId
                  && exists k :: IsProfile(s.profiles, profileId, k) && platform in s.profiles[k].platforms)
            && (reply.Created? ==> Queues(s, next, reply, profileId, platform, now))
            && (!reply.Created? ==>
                  && next == s
                  && reply == if !IsSupported(platform) then UnsupportedPlatform
                              else if !HasProfile(s.profiles, profileId) then ProfileNotFound
                              else if !(exists k :: IsProfile(s.profiles, profileId, k)
                                                    && platform in s.profiles[k].platforms)
                              then PlatformNotEnabled else InvalidJob)
  {
    ProfileIsFound(s, profileId);
    Supports(platform);
    EnqueuedExactly(s, profileId, platform, now);
  }

  lemma Supports(platform: string)
    ensures platform in SUPPORTED_PLATFORMS <==> IsSupported(platform)
    ensures IsSupported(platform) ==> |platform| > 0
  {
  }

  lemma EnqueuedExactly(s: Store, profileId: int, platform: string, now: int)
    ensures var (next, reply) := Enqueued(s, profileId, platform, now);
            if 0 < profileId && |platform| > 0 then Queues(s, next, reply, profileId, platform, now)
            else next == s && reply == InvalidJob
  {
  }

  // A job is canceled exactly when the first with the identifier is waiting.
  lemma CanceledExactly(s: Store, id: int, at: int)
    ensures var (next, reply) := CanceledBy(s, id, at);
            && (reply.Updated? <==> exists k :: IsJob(s.jobs, id, k) && s.jobs[k].status == Queued)
            && (forall k :: reply.Updated? && IsJob(s.jobs, id, k) ==>
                  && ChangesJob(s, next, k) && reply.job == next.jobs[k]
                  && reply.job == s.jobs[k].(status := Canceled, logPath := "", finishedAt := Some(at),
                                             errorMessage := "canceled by administrator"))
            && (!reply.Updated? ==>
                  next == s && reply == if HasJob(s.jobs, id) then NotCancelable else JobNotFound)
  {
    JobIsFound(s, id);
    FinishedExactly(s, id, Canceled, "", "canceled by administrator", at);
  }

  // A job is enqueued anew exactly when the first with the identifier is finished and its
  // profile is still stored; the finished job stays as it is.
  lemma RetriedExactly(s: Store, id: int, now: int)
    ensures var (next, reply) := Retried(s, id, now);
            && (reply.Created? <==>
                  exists k :: IsJob(s.jobs, id, k) && s.jobs[k].status in {Succeeded, Failed, Canceled}
                    && HasProfile(s.profiles, s.jobs[k].profileId)
                    && 0 < s.jobs[k].profileId && |s.jobs[k].platform| > 0)
            && (forall k :: reply.Created? && IsJob(s.jobs, id, k) ==>
                  Queues(s, next, reply, s.jobs[k].profileId, s.jobs[k].platform, now))
            && (!reply.Created? ==>
                  && next == s && (!HasJob(s.jobs, id) ==> reply == JobNotFound)
                  && forall k :: IsJob(s.jobs, id, k) ==>
                       reply == if s.jobs[k].status == Queued || s.jobs[k].status == Running then NotRetryable
                                else if !HasProfile(s.profiles, s.jobs[k].profileId) then ProfileNotFound
                                else InvalidJob)
  {
    JobIsFound(s, id);
    if HasJob(s.jobs, id) {
      var job := s.jobs[JobIndex(s.jobs, id)];
      ProfileIsFound(s, job.profileId);
      EnqueuedExactly(s, job.profileId, job.platform, now);
    }
  }

  // A profile is removed exactly when it is stored and no job refers to it.
  lemma RemovedExactly(s: Store, id: int)
    ensures var (next, reply) := Removed(s, id);
            && (reply == Deleted <==> !InUse(s.jobs, id) && HasProfile(s.profiles, id))
            && (reply != Deleted ==>
                  next == s && reply == if InUse(s.jobs, id) then ProfileHasJobs else ProfileNotFound)
            && forall k :: reply == Deleted && IsProfile(s.profiles, id, k) ==>
                 next == s.(profiles := s.profiles[..k] + s.profiles[k + 1..])
  {
    ProfileDeletedExactly(s, id);
  }

  // A refused audit entry shows in the reply to a change that was made, and nowhere else.
  lemma AuditedExactly(outcome: (Store, Reply), audited: bool)
    ensures var (next, reply) := Audited(outcome, audited);
            && next == outcome.0
            && reply == if !audited && (outcome.1 == Deleted || exists job :: outcome.1 == Created(job))
                        then AuditWriteFailed else outcome.1
  {
  }
}
