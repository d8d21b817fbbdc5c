// The build profiles, jobs and artifacts of api/internal/repository/memory.go.
module BuildStore {
  import opened Wrappers

  datatype JobStatus = Queued | Running | Succeeded | Failed | Canceled

  datatype Job = Job(
    id: int, profileId: int, platform: string, status: JobStatus, runner: string,
    logPath: string, errorMessage: string, createdAt: int,
    startedAt: Option<int>, finishedAt: Option<int>)

  // A job as its creator gives it; no status means queued.
  datatype JobDraft = JobDraft(
    profileId: int, platform: string, status: Option<JobStatus>, runner: string,
    logPath: string, errorMessage: string, startedAt: Option<int>, finishedAt: Option<int>)

  // `platforms` are the ones the stored platforms_json enables, none if it does not parse.
  datatype Profile = Profile(
    id: int, name: string, appName: string, bundleId: string, platforms: set<string>,
    createdBy: int, createdAt: int, updatedAt: int)

  datatype Artifact = Artifact(
    id: int, buildJobId: int, platform: string, filename: string,
    localPath: string, sha256: string, sizeBytes: int, createdAt: int)

  datatype Store = Store(nextID: int, profiles: seq<Profile>, jobs: seq<Job>, artifacts: seq<Artifact>)

  datatype StoreError = NotFound | Conflict | Invalid

  // ------------------------------------------------------------------------
  // Searching.

  function JobIndex(jobs: seq<Job>, id: int): (i: nat)
    ensures i <= |jobs|
    ensures i < |jobs| ==> jobs[i].id == id
    ensures forall j :: 0 <= j < i ==> jobs[j].id != id
  {
    FirstWhere(jobs, (job: Job) => job.id == id)
  }

  function ProfileIndex(profiles: seq<Profile>, id: int): (i: nat)
    ensures i <= |profiles|
    ensures i < |profiles| ==> profiles[i].id == id
    ensures forall j :: 0 <= j < i ==> profiles[j].id != id
  {
    FirstWhere(profiles, (profile: Profile) => profile.id == id)
  }

  function QueuedIndex(jobs: seq<Job>): (i: nat)
    ensures i <= |jobs|
    ensures i < |jobs| ==> jobs[i].status == Queued
    ensures forall j :: 0 <= j < i ==> jobs[j].status != Queued
  {
    FirstWhere(jobs, (job: Job) => job.status == Queued)
  }

  function ArtifactsOf(artifacts: seq<Artifact>, jobId: int): seq<Artifact> {
    if artifacts == [] then []
    else ArtifactsOf(Front(artifacts), jobId)
         + if Last(artifacts).buildJobId == jobId then [Last(artifacts)] else []
  }

  function FindJob(s: Store, id: int): Option<Job> {
    var i := JobIndex(s.jobs, id);
    if i < |s.jobs| then Some(s.jobs[i]) else None
  }

  function FindProfile(s: Store, id: int): Option<Profile> {
    var i := ProfileIndex(s.profiles, id);
    if i < |s.profiles| then Some(s.profiles[i]) else None
  }

  // ------------------------------------------------------------------------
  // Writing.

  function NewJob(id: int, draft: JobDraft, now: int): Job {
    Job(id, draft.profileId, draft.platform, if draft.status.Some? then draft.status.value else Queued,
        draft.runner, draft.logPath, draft.errorMessage, now, draft.startedAt, draft.finishedAt)
  }

  function CreateJob(s: Store, draft: JobDraft, now: int): Result<(Store, Job), StoreError> {
    if draft.profileId <= 0 || draft.platform == "" then Err(Invalid)
    else
      var job := NewJob(s.nextID + 1, draft, now);
      Ok((s.(nextID := s.nextID + 1, jobs := s.jobs + [job]), job))
  }

  function ClaimJob(s: Store, runner: string, at: int): Result<(Store, Job), StoreError> {
    var i := QueuedIndex(s.jobs);
    if i < |s.jobs| then
      var job := s.jobs[i].(status := Running, runner := runner, startedAt := Some(at));
      Ok((s.(jobs := s.jobs[i := job]), job))
    else Err(NotFound)
  }

  function FinishJob(s: Store, id: int, status: JobStatus, logPath: string, message: string, at: int)
    : Result<(Store, Job), StoreError>
  {
    var i := JobIndex(s.jobs, id);
    if i < |s.jobs| then
      var job := s.jobs[i].(status := status, logPath := logPath, errorMessage := message, finishedAt := Some(at));
      Ok((s.(jobs := s.jobs[i := job]), job))
    else Err(NotFound)
  }

  function CreateProfile(s: Store, draft: Profile, now: int): Result<(Store, Profile), StoreError> {
    if draft.name == "" || draft.appName == "" || draft.bundleId == "" then Err(Invalid)
    else
      var profile := draft.(id := s.nextID + 1, createdAt := now, updatedAt := now);
      Ok((s.(nextID := s.nextID + 1, profiles := s.profiles + [profile]), profile))
  }

  function UpdateProfile(s: Store, id: int, draft: Profile, now: int): Result<(Store, Profile), StoreError> {
    if draft.name == "" || draft.appName == "" || draft.bundleId == "" then Err(Invalid)
    else
      var i := ProfileIndex(s.profiles, id);
      if i < |s.profiles| then
        var profile := draft.(id := id, createdBy := s.profiles[i].createdBy,
                              createdAt := s.profiles[i].createdAt, updatedAt := now);
        Ok((s.(profiles := s.profiles[i := profile]), profile))
      else Err(NotFound)
  }

  predicate HasJobs(jobs: seq<Job>, profileId: int) {
    exists i :: 0 <= i < |jobs| && jobs[i].profileId == profileId
  }

  function DeleteProfile(s: Store, id: int): Result<Store, StoreError> {
    if HasJobs(s.jobs, id) then Err(Conflict)
    else
      var i := ProfileIndex(s.profiles, id);
      if i < |s.profiles| then Ok(s.(profiles := s.profiles[..i] + s.profiles[i + 1..])) else Err(NotFound)
  }

  function CreateArtifact(s: Store, draft: Artifact, now: int): Result<(Store, Artifact), StoreError> {
    if draft.buildJobId <= 0 || draft.platform == "" || draft.filename == "" then Err(Invalid)
    else
      var artifact := draft.(id := s.nextID + 1, createdAt := now);
      Ok((s.(nextID := s.nextID + 1, artifacts := s.artifacts + [artifact]), artifact))
  }

  // ------------------------------------------------------------------------
  // The store object. Each method runs under the store's lock.

  class Memory {
    var nextID: int
    var buildProfiles: seq<Profile>
    var buildJobs: seq<Job>
    var buildArtifacts: seq<Artifact>

    ghost function State(): Store
      reads this
    {
      Store(nextID, buildProfiles, buildJobs, buildArtifacts)
    }

    constructor (nextID: int)
      ensures State() == Store(nextID, [], [], [])
    {
      this.nextID := nextID;
      buildProfiles := [];
      buildJobs := [];
      buildArtifacts := [];
    }

    method CreateBuildJob(draft: JobDraft, now: int) returns (r: Result<Job, StoreError>)
      modifies this
      ensures match CreateJob(old(State()), draft, now)
              case Ok((s, job)) => r == Ok(job) && State() == s
              case Err(e) => r == Err(e) && State() == old(State())
    {
      if draft.profileId <= 0 || draft.platform == "" {
        return Err(Invalid);
      }
      nextID := nextID + 1;
      var status := if draft.status.None? then Queued else draft.status.value;
      var job := Job(nextID, draft.profileId, draft.platform, status, draft.runner, draft.logPath,
                     draft.errorMessage, now, draft.startedAt, draft.finishedAt);
      buildJobs := buildJobs + [job];
      r := Ok(job);
    }

    method FindBuildJobByID(id: int) returns (r: Option<Job>)
      ensures r == FindJob(State(), id)
    {
      for i := 0 to |buildJobs|
        invariant i <= JobIndex(buildJobs, id)
      {
        if buildJobs[i].id == id {
          return Some(buildJobs[i]);
        }
      }
      r := None;
    }

    method FindBuildProfileByID(id: int) returns (r: Option<Profile>)
      ensures r == FindProfile(State(), id)
    {
      for i := 0 to |buildProfiles|
        invariant i <= ProfileIndex(buildProfiles, id)
      {
        if buildProfiles[i].id == id {
          return Some(buildProfiles[i]);
        }
      }
      r := None;
    }

    method ClaimNextBuildJob(runner: string, at: int) returns (r: Result<Job, StoreError>)
      modifies this
      ensures match ClaimJob(old(State()), runner, at)
              case Ok((s, job)) => r == Ok(job) && State() == s
              case Err(e) => r == Err(e) && State() == old(State())
    {
      for i := 0 to |buildJobs|
        invariant i <= QueuedIndex(buildJobs) && State() == old(State())
      {
        if buildJobs[i].status == Queued {
          buildJobs := buildJobs[i := buildJobs[i].(status := Running, runner := runner, startedAt := Some(at))];
          return Ok(buildJobs[i]);
        }
      }
      r := Err(NotFound);
    }

    method FinishBuildJob(id: int, status: JobStatus, logPath: string, message: string, at: int)
      returns (r: Result<Job, StoreError>)
      modifies this
      ensures match FinishJob(old(State()), id, status, logPath, message, at)
              case Ok((s, job)) => r == Ok(job) && State() == s
              case Err(e) => r == Err(e) && State() == old(State())
    {
      for i := 0 to |buildJobs|
        invariant i <= JobIndex(buildJobs, id) && State() == old(State())
      {
        if buildJobs[i].id == id {
          buildJobs := buildJobs[i := buildJobs[i].(status := status, logPath := logPath,
                                                    errorMessage := message, finishedAt := Some(at))];
          return Ok(buildJobs[i]);
        }
      }
      r := Err(NotFound);
    }

    method CompleteBuildJob(id: int, logPath: string, at: int) returns (r: Result<Job, StoreError>)
      modifies this
      ensures match FinishJob(old(State()), id, Succeeded, logPath, "", at)
              case Ok((s, job)) => r == Ok(job) && State() == s
              case Err(e) => r == Err(e) && State() == old(State())
    {
      r := FinishBuildJob(id, Succeeded, logPath, "", at);
    }

    method FailBuildJob(id: int, logPath: string, message: string, at: int) returns (r: Result<Job, StoreError>)
      modifies this
      ensures match FinishJob(old(State()), id, Failed, logPath, message, at)
              case Ok((s, job)) => r == Ok(job) && State() == s
              case Err(e) => r == Err(e) && State() == old(State())
    {
      r := FinishBuildJob(id, Failed, logPath, message, at);
    }

    method CancelBuildJob(id: int, message: string, at: int) returns (r: Result<Job, StoreError>)
      modifies this
      ensures match FinishJob(old(State()), id, Canceled, "", message, at)
              case Ok((s, job)) => r == Ok(job) && State() == s
              case Err(e) => r == Err(e) && State() == old(State())
    {
      r := FinishBuildJob(id, Canceled, "", message, at);
    }

    method CreateBuildProfile(draft: Profile, now: int) returns (r: Result<Profile, StoreError>)
      modifies this
      ensures match CreateProfile(old(State()), draft, now)
              case Ok((s, profile)) => r == Ok(profile) && State() == s
              case Err(e) => r == Err(e) && State() == old(State())
    {
      if draft.name == "" || draft.appName == "" || draft.bundleId == "" {
        return Err(Invalid);
      }
      nextID := nextID + 1;
      var profile := draft.(id := nextID, createdAt := now, updatedAt := now);
      buildProfiles := buildProfiles + [profile];
      r := Ok(profile);
    }

    method UpdateBuildProfile(id: int, draft: Profile, now: int) returns (r: Result<Profile, StoreError>)
      modifies this
      ensures match UpdateProfile(old(State()), id, draft, now)
              case Ok((s, profile)) => r == Ok(profile) && State() == s
              case Err(e) => r == Err(e) && State() == old(State())
    {
      if draft.name == "" || draft.appName == "" || draft.bundleId == "" {
        return Err(Invalid);
      }
      for i := 0 to |buildProfiles|
        invariant i <= ProfileIndex(buildProfiles, id) && State() == old(State())
      {
        if buildProfiles[i].id == id {
          var profile := draft.(id := id, createdBy := buildProfiles[i].createdBy,
                                createdAt := buildProfiles[i].createdAt, updatedAt := now);
          buildProfiles := buildProfiles[i := profile];
          return Ok(profile);
        }
      }
      r := Err(NotFound);
    }

    method DeleteBuildProfile(id: int) returns (r: Result<(), StoreError>)
      modifies this
      ensures match DeleteProfile(old(State()), id)
              case Ok(s) => r == Ok(()) && State() == s
              case Err(e) => r == Err(e) && State() == old(State())
    {
      for i := 0 to |buildJobs|
        invariant State() == old(State())
        invariant forall j :: 0 <= j < i ==> buildJobs[j].profileId != id
      {
        if buildJobs[i].profileId == id {
          return Err(Conflict);
        }
      }
      for i := 0 to |buildProfiles|
        invariant i <= ProfileIndex(buildProfiles, id) && State() == old(State())
      {
        if buildProfiles[i].id == id {
          buildProfiles := buildProfiles[..i] + buildProfiles[i + 1..];
          return Ok(());
        }
      }
      r := Err(NotFound);
    }

    method CreateBuildArtifact(draft: Artifact, now: int) returns (r: Result<Artifact, StoreError>)
      modifies this
      ensures match CreateArtifact(old(State()), draft, now)
              case Ok((s, artifact)) => r == Ok(artifact) && State() == s
              case Err(e) => r == Err(e) && State() == old(State())
    {
      if draft.buildJobId <= 0 || draft.platform == "" || draft.filename == "" {
        return Err(Invalid);
      }
      nextID := nextID + 1;
      var artifact := draft.(id := nextID, createdAt := now);
      buildArtifacts := buildArtifacts + [artifact];
      r := Ok(artifact);
    }

    method ListBuildArtifacts(jobId: int) returns (artifacts: seq<Artifact>)
      ensures artifacts == ArtifactsOf(buildArtifacts, jobId)
    {
      artifacts := [];
      for i := 0 to |buildArtifacts|
        invariant artifacts == ArtifactsOf(buildArtifacts[..i], jobId)
      {
        assert Front(buildArtifacts[..i + 1]) == buildArtifacts[..i];
        if buildArtifacts[i].buildJobId == jobId {
          artifacts := artifacts + [buildArtifacts[i]];
        }
      }
      assert buildArtifacts[..|buildArtifacts|] == buildArtifacts;
    }
  }

  // ------------------------------------------------------------------------
  // The operations, over the records themselves.

  // Job k is the first with this identifier.
  ghost predicate IsJob(jobs: seq<Job>, id: int, k: int) {
    0 <= k < |jobs| && jobs[k].id == id && forall j :: 0 <= j < k ==> jobs[j].id != id
  }

  ghost predicate IsProfile(profiles: seq<Profile>, id: int, k: int) {
    0 <= k < |profiles| && profiles[k].id == id && forall j :: 0 <= j < k ==> profiles[j].id != id
  }

  ghost predicate HasJob(jobs: seq<Job>, id: int) {
    exists k :: 0 <= k < |jobs| && jobs[k].id == id
  }

  ghost predicate HasProfile(profiles: seq<Profile>, id: int) {
    exists k :: 0 <= k < |profiles| && profiles[k].id == id
  }

  // Only jobs changed, and of those only job k.
  predicate ChangesJob(s: Store, next: Store, k: int) {
    && 0 <= k < |s.jobs| == |next.jobs| && next == s.(jobs := s.jobs[k := next.jobs[k]])
  }

  lemma JobIsFound(s: Store, id: int)
    ensures FindJob(s, id).None? <==> !HasJob(s.jobs, id)
    ensures forall k :: IsJob(s.jobs, id, k) ==> FindJob(s, id) == Some(s.jobs[k]) && JobIndex(s.jobs, id) == k
    ensures HasJob(s.jobs, id) ==> IsJob(s.jobs, id, JobIndex(s.jobs, id))
  {
    var i := JobIndex(s.jobs, id);
    assert i < |s.jobs| ==> s.jobs[i].id == id;
  }

  lemma ProfileIsFound(s: Store, id: int)
    ensures FindProfile(s, id).None? <==> !HasProfile(s.profiles, id)
    ensures forall k :: IsProfile(s.profiles, id, k) ==>
              FindProfile(s, id) == Some(s.profiles[k]) && ProfileIndex(s.profiles, id) == k
    ensures HasProfile(s.profiles, id) ==> IsProfile(s.profiles, id, ProfileIndex(s.profiles, id))
  {
    var i := ProfileIndex(s.profiles, id);
    assert i < |s.profiles| ==> s.profiles[i].id == id;
  }

  // The first job with the identifier takes the status, log, message and finish time and
  // keeps everything else; without one nothing changes.
  lemma FinishedExactly(s: Store, id: int, status: JobStatus, logPath: string, message: string, at: int)
    ensures var r := FinishJob(s, id, status, logPath, message, at);
            && (r.Ok? <==> HasJob(s.jobs, id)) && (r.Err? ==> r.error == NotFound)
            && forall k :: r.Ok? && IsJob(s.jobs, id, k) ==>
                 && ChangesJob(s, r.value.0, k) && r.value.1 == r.value.0.jobs[k]
                 && var before, after := s.jobs[k], r.value.1;
                 && after.status == status && after.logPath == logPath && after.errorMessage == message
                 && after.finishedAt == Some(at)
                 && after.id == id && after.profileId == before.profileId && after.platform == before.platform
                 && after.runner == before.runner && after.createdAt == before.createdAt
                 && after.startedAt == before.startedAt
  {
    JobIsFound(s, id);
  }

  // A claim takes the first queued job, sets its runner and start time, and keeps the rest.
  lemma ClaimedExactly(s: Store, runner: string, at: int)
    ensures var r := ClaimJob(s, runner, at);
            && (r.Ok? <==> exists k :: 0 <= k < |s.jobs| && s.jobs[k].status == Queued)
            && (r.Err? ==> r.error == NotFound)
            && (r.Ok? ==>
                  exists k :: 0 <= k < |s.jobs| && s.jobs[k].status == Queued
                    && (forall j :: 0 <= j < k ==> s.jobs[j].status != Queued)
                    && ChangesJob(s, r.value.0, k) && r.value.1 == r.value.0.jobs[k]
                    && r.value.1 == s.jobs[k].(status := Running, runner := runner, startedAt := Some(at)))
  {
    var i := QueuedIndex(s.jobs);
    assert i < |s.jobs| ==> s.jobs[i].status == Queued;
  }

  // A profile is stored exactly when it has a name, an application name and a bundle
  // identifier, under the next identifier and with the current time.
  lemma ProfileCreatedExactly(s: Store, draft: Profile, now: int)
    ensures var r := CreateProfile(s, draft, now);
            && (r.Ok? <==> |draft.name| > 0 && |draft.appName| > 0 && |draft.bundleId| > 0)
            && (r.Err? ==> r.error == Invalid)
            && (r.Ok? ==>
                  && r.value.0.profiles == s.profiles + [r.value.1] && r.value.0.nextID == s.nextID + 1
                  && r.value.0.jobs == s.jobs && r.value.0.artifacts == s.artifacts
                  && var profile := r.value.1;
                  && profile.id == s.nextID + 1 && profile.createdAt == now == profile.updatedAt
                  && profile.name == draft.name && profile.appName == draft.appName
                  && profile.bundleId == draft.bundleId && profile.platforms == draft.platforms
                  && profile.createdBy == draft.createdBy)
  {
  }

  // An edit keeps who created the profile and when.
  lemma ProfileUpdatedExactly(s: Store, id: int, draft: Profile, now: int)
    ensures var r := UpdateProfile(s, id, draft, now);
            var complete := |draft.name| > 0 && |draft.appName| > 0 && |draft.bundleId| > 0;
            && (r.Ok? <==> complete && HasProfile(s.profiles, id))
            && (r.Err? ==> r.error == if complete then NotFound else Invalid)
            && forall k :: r.Ok? && IsProfile(s.profiles, id, k) ==>
                 && r.value.0 == s.(profiles := s.profiles[k := r.value.1])
                 && var before, profile := s.profiles[k], r.value.1;
                 && profile.id == id && profile.createdBy == before.createdBy && profile.createdAt == before.createdAt
                 && profile.updatedAt == now && profile.name == draft.name && profile.appName == draft.appName
                 && profile.bundleId == draft.bundleId && profile.platforms == draft.platforms
  {
    ProfileIsFound(s, id);
  }

  ghost predicate InUse(jobs: seq<Job>, profileId: int) {
    exists k :: 0 <= k < |jobs| && jobs[k].profileId == profileId
  }

  lemma OneIsProfile(profiles: seq<Profile>, id: int, k: int, l: int)
    requires IsProfile(profiles, id, k) && IsProfile(profiles, id, l)
    ensures k == l
  {
  }

  lemma DeletesProfile(s: Store, id: int, k: int)
    requires !InUse(s.jobs, id) && IsProfile(s.profiles, id, k)
    ensures DeleteProfile(s, id) == Ok(s.(profiles := s.profiles[..k] + s.profiles[k + 1..]))
  {
    assert ProfileIndex(s.profiles, id) == k;
  }

  lemma SparesProfile(s: Store, id: int)
    requires InUse(s.jobs, id) || !HasProfile(s.profiles, id)
    ensures DeleteProfile(s, id) == Err(if InUse(s.jobs, id) then Conflict else NotFound)
  {
    ProfileIsFound(s, id);
    assert HasJobs(s.jobs, id) <==> InUse(s.jobs, id);
  }

  // A profile is deleted exactly when it is stored and no job refers to it.
  lemma ProfileDeletedExactly(s: Store, id: int)
    ensures var r := DeleteProfile(s, id);
            && (r.Ok? <==> !InUse(s.jobs, id) && HasProfile(s.profiles, id))
            && (r.Err? ==> r.error == if InUse(s.jobs, id) then Conflict else NotFound)
            && forall k :: r.Ok? && IsProfile(s.profiles, id, k) ==>
                 r.value == s.(profiles := s.profiles[..k] + s.profiles[k + 1..])
  {
    if InUse(s.jobs, id) || !HasProfile(s.profiles, id) {
      SparesProfile(s, id);
    } else {
      ProfileIsFound(s, id);
      var i := ProfileIndex(s.profiles, id);
      DeletesProfile(s, id, i);
      forall k | IsProfile(s.profiles, id, k)
        ensures k == i
      {
        OneIsProfile(s.profiles, id, k, i);
      }
    }
  }

  // An artifact is recorded exactly when it names a job, a platform and a file.
  lemma ArtifactCreatedExactly(s: Store, draft: Artifact, now: int)
    ensures var r := CreateArtifact(s, draft, now);
            && (r.Ok? <==> 0 < draft.buildJobId && |draft.platform| > 0 && |draft.filename| > 0)
            && (r.Err? ==> r.error == Invalid)
            && (r.Ok? ==>
                  && r.value.0.artifacts == s.artifacts + [r.value.1] && r.value.0.nextID == s.nextID + 1
                  && r.value.0.jobs == s.jobs && r.value.0.profiles == s.profiles
                  && var artifact := r.value.1;
                  && artifact.id == s.nextID + 1 && artifact.createdAt == now
                  && artifact.buildJobId == draft.buildJobId && artifact.platform == draft.platform
                  && artifact.filename == draft.filename && artifact.localPath == draft.localPath
                  && artifact.sha256 == draft.sha256 && artifact.sizeBytes == draft.sizeBytes)
  {
  }

  // A job is stored exactly when it names a profile and a platform; without a status it waits.
  lemma JobCreatedExactly(s: Store, draft: JobDraft, now: int)
    ensures var r := CreateJob(s, draft, now);
            && (r.Ok? <==> 0 < draft.profileId && |draft.platform| > 0)
            && (r.Err? ==> r.error == Invalid)
            && (r.Ok? ==>
                  && r.value.0.jobs == s.jobs + [r.value.1] && r.value.0.nextID == s.nextID + 1
                  && r.value.0.profiles == s.profiles && r.value.0.artifacts == s.artifacts
                  && var job := r.value.1;
                  && job.id == s.nextID + 1 && job.createdAt == now
                  && job.profileId == draft.profileId && job.platform == draft.platform
                  && (draft.status.Some? ==> job.status == draft.status.value)
                  && (draft.status.None? ==> job.status == Queued)
                  && job.runner == draft.runner && job.logPath == draft.logPath
                  && job.errorMessage == draft.errorMessage
                  && job.startedAt == draft.startedAt && job.finishedAt == draft.finishedAt)
  {
  }
}
