// The worker of api/internal/buildworker/worker.go: claim a job, run the builder, record
// what it built, finish the job.
module BuildWorker {
  import opened Wrappers
  import opened Text
  import opened BuildStore

  // One entry of the builder's parsed output, with what the store's clock will read when it
  // is recorded.
  datatype Built = Built(path: string, sha256: string, sizeBytes: int, recordedAt: int)

  datatype RunnerResult = RunnerResult(buildLog: string, artifacts: seq<Built>)

  // Everything outside the store that decides how a claimed job ends: preparing its
  // directory and spec, running the builder, parsing its output.
  datatype Outcome =
    | NotPrepared(message: string)
    | Ran(runError: Option<string>, stderr: string, parsed: Result<RunnerResult, string>)

  datatype Reply =
    | NoQueuedJobs
    | Finished(job: Option<Job>, artifacts: seq<Artifact>, error: Option<string>)
    | StoreFailed(storeError: StoreError)

  // ------------------------------------------------------------------------
  // filepath.Base on a slash-separated path.

  function StripSlashes(path: string): (r: string)
    ensures r <= path
    ensures r != "" ==> r[|r| - 1] != '/'
  {
    if path != "" && path[|path| - 1] == '/' then StripSlashes(path[..|path| - 1]) else path
  }

  function AfterLastSlash(path: string): (r: string)
    ensures '/' !in r
    ensures path != "" && path[|path| - 1] != '/' ==> r != ""
  {
    if path == "" || path[|path| - 1] == '/' then ""
    else AfterLastSlash(path[..|path| - 1]) + [path[|path| - 1]]
  }

  // Never empty, which is why the store never refuses an artifact.
  function Base(path: string): (r: string)
    ensures r != ""
    ensures '/' in r ==> r == "/"
  {
    if path == "" then "."
    else
      var stripped := StripSlashes(path);
      if stripped == "" then "/" else AfterLastSlash(stripped)
  }

  predicate OnlySlashes(s: string) {
    forall i :: 0 <= i < |s| ==> s[i] == '/'
  }

  lemma {:induction false} StripsSlashes(path: string) returns (slashes: string)
    ensures path == StripSlashes(path) + slashes && OnlySlashes(slashes)
  {
    if path != "" && path[|path| - 1] == '/' {
      var rest := StripsSlashes(path[..|path| - 1]);
      slashes := rest + "/";
    } else {
      slashes := "";
    }
  }

  lemma {:induction false} StripsToNothing(path: string)
    ensures StripSlashes(path) == "" <==> OnlySlashes(path)
  {
    if path != "" && path[|path| - 1] == '/' {
      StripsToNothing(path[..|path| - 1]);
      assert path == path[..|path| - 1] + "/";
    }
  }

  lemma {:induction false} SplitsAtLastSlash(path: string) returns (dir: string)
    ensures path == dir + AfterLastSlash(path) && '/' !in AfterLastSlash(path)
    ensures dir == "" || dir[|dir| - 1] == '/'
  {
    if path == "" || path[|path| - 1] == '/' {
      dir := path;
    } else {
      dir := SplitsAtLastSlash(path[..|path| - 1]);
    }
  }

  // The name of a file is what follows the last slash of its path, slashes at the end of the
  // path aside; a path of nothing but slashes is the root, no path at all the current place.
  lemma BaseExactly(path: string) returns (dir: string, slashes: string)
    ensures path == "" ==> Base(path) == "."
    ensures path != "" && OnlySlashes(path) ==> Base(path) == "/"
    ensures !OnlySlashes(path) ==>
              && path == dir + Base(path) + slashes && OnlySlashes(slashes)
              && (dir == "" || dir[|dir| - 1] == '/') && '/' !in Base(path) && Base(path) != ""
  {
    slashes := StripsSlashes(path);
    dir := SplitsAtLastSlash(StripSlashes(path));
    StripsToNothing(path);
  }

  // ------------------------------------------------------------------------
  // One run of the worker.

  function Draft(job: Job, built: Built): Artifact {
    Artifact(0, job.id, job.platform, Base(built.path), built.path, built.sha256, built.sizeBytes, built.recordedAt)
  }

  function Drafts(job: Job, builts: seq<Built>): (r: seq<Artifact>)
    ensures |r| == |builts|
    ensures forall i :: 0 <= i < |r| ==> r[i] == Draft(job, builts[i])
  {
    seq(|builts|, i requires 0 <= i < |builts| => Draft(job, builts[i]))
  }

  // The store after recording the artifacts in order, those recorded, and what stopped it.
  function Publish(s: Store, job: Job, builts: seq<Built>): (Store, seq<Artifact>, Option<StoreError>) {
    if builts == [] then (s, [], None)
    else
      var (before, done, stopped) := Publish(s, job, Front(builts));
      if stopped.Some? then (before, done, stopped)
      else
        match CreateArtifact(before, Draft(job, Last(builts)), Last(builts).recordedAt)
        case Ok((after, artifact)) => (after, done + [artifact], None)
        case Err(e) => (before, done, Some(e))
  }

  // Worker.fail, which reports a store that cannot record the failure.
  function Failing(s: Store, id: int, logPath: string, message: string, at: int): (Store, Reply) {
    match FinishJob(s, id, Failed, logPath, message, at)
    case Ok((next, job)) => (next, Finished(Some(job), [], Some(message)))
    case Err(e) => (s, StoreFailed(e))
  }

  // The two places that fail a job and look away if the store cannot record it.
  function FailingQuietly(s: Store, id: int, logPath: string, message: string, error: string, at: int): (Store, Reply) {
    match FinishJob(s, id, Failed, logPath, message, at)
    case Ok((next, job)) => (next, Finished(Some(job), [], Some(error)))
    case Err(_) => (s, Finished(None, [], Some(error)))
  }

  function ErrorText(e: StoreError): string {
    match e
    case NotFound => "not found"
    case Conflict => "conflict"
    case Invalid => "build_job_id, platform, and filename are required"
  }

  predicate Builds(outcome: Outcome) {
    outcome.Ran? && outcome.runError == None && outcome.parsed.Ok?
  }

  // The log path and message recorded for a build that did not come off.
  function FailureOf(outcome: Outcome): (string, string)
    requires !Builds(outcome)
  {
    match outcome
    case NotPrepared(message) => ("", message)
    case Ran(Some(error), stderr, parsed) =>
      (if parsed.Ok? then parsed.value.buildLog else "", if TrimSpace(stderr) == "" then error else TrimSpace(stderr))
    case Ran(None, _, parsed) => ("", parsed.error)
  }

  function Settled(s: Store, job: Job, outcome: Outcome, at: int): (Store, Reply) {
    match outcome
    case NotPrepared(message) => Failing(s, job.id, "", message, at)
    case Ran(Some(error), _, _) =>
      FailingQuietly(s, job.id, FailureOf(outcome).0, FailureOf(outcome).1, error, at)
    case Ran(None, _, Err(parseError)) => Failing(s, job.id, "", parseError, at)
    case Ran(None, _, Ok(result)) =>
      var (published, artifacts, stopped) := Publish(s, job, result.artifacts);
      if stopped.Some? then Failing(published, job.id, result.buildLog, ErrorText(stopped.value), at)
      else
        match FinishJob(published, job.id, Succeeded, result.buildLog, "", at)
        case Ok((next, completed)) => (next, Finished(Some(completed), artifacts, None))
        case Err(e) => (published, StoreFailed(e))
  }

  function NextRun(s: Store, runner: string, outcome: Outcome, claimedAt: int, finishedAt: int): (Store, Reply) {
    match ClaimJob(s, runner, claimedAt)
    case Err(_) => (s, NoQueuedJobs)
    case Ok((claimed, job)) =>
      if FindProfile(claimed, job.profileId).None?
      then FailingQuietly(claimed, job.id, "", "build profile not found", "not found", finishedAt)
      else Settled(claimed, job, outcome, finishedAt)
  }

  class Worker {
    const store: Memory
    const runnerName: string

    constructor (store: Memory, runnerName: string)
      ensures this.store == store
      ensures this.runnerName == if TrimSpace(runnerName) == "" then "local-worker" else runnerName
    {
      this.store := store;
      this.runnerName := if TrimSpace(runnerName) == "" then "local-worker" else runnerName;
    }

    // `outcome` is what the file system and the executor will do; the two times are the
    // worker's clock when it claims and when it finishes.
    method RunOnce(outcome: Outcome, claimedAt: int, finishedAt: int) returns (reply: Reply)
      modifies store
      ensures (store.State(), reply) == NextRun(old(store.State()), runnerName, outcome, claimedAt, finishedAt)
    {
      var claimed := store.ClaimNextBuildJob(runnerName, claimedAt);
      if claimed.Err? {
        return NoQueuedJobs;
      }
      var job := claimed.value;
      var profile := store.FindBuildProfileByID(job.profileId);
      if profile.None? {
        var failed := store.FailBuildJob(job.id, "", "build profile not found", finishedAt);
        return Finished(if failed.Ok? then Some(failed.value) else None, [], Some("not found"));
      }
      reply := RunClaimed(job, outcome, finishedAt);
    }

    method RunClaimed(job: Job, outcome: Outcome, finishedAt: int) returns (reply: Reply)
      modifies store
      ensures (store.State(), reply) == Settled(old(store.State()), job, outcome, finishedAt)
    {
      match outcome {
        case NotPrepared(message) =>
          reply := Fail(job.id, "", message, finishedAt);
        case Ran(runError, stderr, parsed) =>
          if runError.Some? {
            var message := TrimSpace(stderr);
            if message == "" {
              message := runError.value;
            }
            var log := if parsed.Ok? then parsed.value.buildLog else "";
            var failed := store.FailBuildJob(job.id, log, message, finishedAt);
            return Finished(if failed.Ok? then Some(failed.value) else None, [], runError);
          }
          if parsed.Err? {
            reply := Fail(job.id, "", parsed.error, finishedAt);
            return;
          }
          reply := Record(job, parsed.value, finishedAt);
      }
    }

    // The successful tail of runClaimed.
    method Record(job: Job, result: RunnerResult, finishedAt: int) returns (reply: Reply)
      modifies store
      ensures (store.State(), reply)
              == Settled(old(store.State()), job, Ran(None, "", Ok(result)), finishedAt)
    {
      ghost var start := store.State();
      var artifacts := [];
      for i := 0 to |result.artifacts|
        invariant Publish(start, job, result.artifacts[..i]) == (store.State(), artifacts, None)
      {
        assert Front(result.artifacts[..i + 1]) == result.artifacts[..i];
        var built := result.artifacts[i];
        var created := store.CreateBuildArtifact(
          Artifact(0, job.id, job.platform, Base(built.path), built.path, built.sha256, built.sizeBytes, 0),
          built.recordedAt);
        if created.Err? {
          StoppedStaysStopped(start, job, result.artifacts, i + 1);
          reply := Fail(job.id, result.buildLog, ErrorText(created.error), finishedAt);
          return;
        }
        artifacts := artifacts + [created.value];
      }
      assert result.artifacts[..|result.artifacts|] == result.artifacts;
      var completed := store.CompleteBuildJob(job.id, result.buildLog, finishedAt);
      if completed.Err? {
        return StoreFailed(completed.error);
      }
      reply := Finished(Some(completed.value), artifacts, None);
    }

    method Fail(id: int, logPath: string, message: string, at: int) returns (reply: Reply)
      modifies store
      ensures (store.State(), reply) == Failing(old(store.State()), id, logPath, message, at)
    {
      var failed := store.FailBuildJob(id, logPath, message, at);
      if failed.Err? {
        return StoreFailed(failed.error);
      }
      reply := Finished(Some(failed.value), [], Some(message));
    }
  }

  lemma {:induction false} StoppedStaysStopped(s: Store, job: Job, builts: seq<Built>, n: nat)
    requires n <= |builts| && Publish(s, job, builts[..n]).2.Some?
    ensures Publish(s, job, builts) == Publish(s, job, builts[..n])
    decreases |builts|
  {
    if n < |builts| {
      assert Front(builts)[..n] == builts[..n];
      StoppedStaysStopped(s, job, Front(builts), n);
    } else {
      assert builts[..n] == builts;
    }
  }

  // ------------------------------------------------------------------------
  // What a run achieves.

  // Artifacts without their identifiers.
  function Contents(artifacts: seq<Artifact>): (r: seq<Artifact>)
    ensures |r| == |artifacts|
    ensures forall i :: 0 <= i < |r| ==> r[i] == artifacts[i].(id := 0)
  {
    seq(|artifacts|, i requires 0 <= i < |artifacts| => artifacts[i].(id := 0))
  }

  lemma ContentsGrow(artifacts: seq<Artifact>, artifact: Artifact)
    ensures Contents(artifacts + [artifact]) == Contents(artifacts) + [artifact.(id := 0)]
  {
  }

  lemma DraftsGrow(job: Job, builts: seq<Built>, n: nat)
    requires n < |builts|
    ensures Drafts(job, builts[..n + 1]) == Drafts(job, builts[..n]) + [Draft(job, builts[n])]
  {
  }

  lemma ArtifactsAppend(artifacts: seq<Artifact>, artifact: Artifact, id: int)
    ensures ArtifactsOf(artifacts + [artifact], id)
            == ArtifactsOf(artifacts, id) + if artifact.buildJobId == id then [artifact] else []
  {
    FrontOfAppend(artifacts, artifact);
  }

  // The store never refuses what the builder made for a stored job.
  lemma DraftIsAccepted(s: Store, job: Job, built: Built)
    requires 0 < job.id && job.platform != ""
    ensures var artifact := Draft(job, built).(id := s.nextID + 1);
            CreateArtifact(s, Draft(job, built), built.recordedAt)
            == Ok((s.(nextID := s.nextID + 1, artifacts := s.artifacts + [artifact]), artifact))
  {
  }

  // The last of the artifacts is recorded after the others.
  lemma PublishOneMore(s: Store, job: Job, builts: seq<Built>)
    requires 0 < job.id && job.platform != "" && builts != [] && Publish(s, job, Front(builts)).2 == None
    ensures var (before, done, _) := Publish(s, job, Front(builts));
            var artifact := Draft(job, Last(builts)).(id := before.nextID + 1);
            Publish(s, job, builts)
            == (before.(nextID := before.nextID + 1, artifacts := before.artifacts + [artifact]),
                done + [artifact], None)
  {
    DraftIsAccepted(Publish(s, job, Front(builts)).0, job, Last(builts));
  }

  // Recording the artifacts of a stored job never fails and keeps their order.
  lemma {:induction false} PublishSucceeds(s: Store, job: Job, builts: seq<Built>)
    requires 0 < job.id && job.platform != ""
    ensures var (next, artifacts, stopped) := Publish(s, job, builts);
            && stopped == None && next.jobs == s.jobs && next.profiles == s.profiles
            && next.nextID == s.nextID + |builts|
            && Contents(artifacts) == Drafts(job, builts)
  {
    if builts != [] {
      var n := |builts| - 1;
      PublishSucceeds(s, job, Front(builts));
      PublishOneMore(s, job, builts);
      var (before, done, _) := Publish(s, job, Front(builts));
      ContentsGrow(done, Draft(job, Last(builts)).(id := before.nextID + 1));
      DraftsGrow(job, builts, n);
      assert builts[..n] == Front(builts) && builts[..n + 1] == builts;
    }
  }

  // It adds to that job's artifacts and to no other's.
  lemma {:induction false} PublishRecords(s: Store, job: Job, builts: seq<Built>, other: int)
    requires 0 < job.id && job.platform != ""
    ensures ArtifactsOf(Publish(s, job, builts).0.artifacts, other)
            == ArtifactsOf(s.artifacts, other) + (if other == job.id then Publish(s, job, builts).1 else [])
  {
    if builts != [] {
      PublishRecords(s, job, Front(builts), other);
      PublishSucceeds(s, job, Front(builts));
      PublishOneMore(s, job, builts);
      var (before, done, _) := Publish(s, job, Front(builts));
      var artifact := Draft(job, Last(builts)).(id := before.nextID + 1);
      ArtifactsAppend(before.artifacts, artifact, other);
      GrowsIf(ArtifactsOf(s.artifacts, other), done, artifact, other == job.id);
    }
  }

  lemma GrowsIf(base: seq<Artifact>, done: seq<Artifact>, artifact: Artifact, grows: bool)
    ensures base + (if grows then done else []) + (if grows then [artifact] else [])
            == base + (if grows then done + [artifact] else [])
  {
    ConcatAssociates(base, done, [artifact]);
  }

  // What the worker relies on: distinct positive identifiers, a platform and a stored
  // profile for every job, and no artifacts before a job runs.
  ghost predicate Runnable(s: Store) {
    && (forall i, j :: 0 <= i < j < |s.jobs| ==> s.jobs[i].id != s.jobs[j].id)
    && (forall i :: 0 <= i < |s.jobs| ==>
          0 < s.jobs[i].id && s.jobs[i].platform != "" && FindProfile(s, s.jobs[i].profileId).Some?)
    && (forall i :: 0 <= i < |s.jobs| && s.jobs[i].status == Queued ==> ArtifactsOf(s.artifacts, s.jobs[i].id) == [])
  }

  // A run that finds a waiting job leaves exactly that job finished: succeeded with
  // precisely the parsed artifacts in order, or failed with none. Otherwise nothing moves.
  lemma RunOnceSettlesOneJob(s: Store, runner: string, outcome: Outcome, claimedAt: int, finishedAt: int)
    requires Runnable(s)
    ensures var (next, reply) := NextRun(s, runner, outcome, claimedAt, finishedAt);
            var i := QueuedIndex(s.jobs);
            if i == |s.jobs| then next == s && reply == NoQueuedJobs
            else
              && |next.jobs| == |s.jobs| && next.profiles == s.profiles
              && next.jobs == s.jobs[i := next.jobs[i]]
              && next.jobs[i].id == s.jobs[i].id && next.jobs[i].profileId == s.jobs[i].profileId
              && next.jobs[i].platform == s.jobs[i].platform
              && next.jobs[i].status == (if Builds(outcome) then Succeeded else Failed)
              && next.jobs[i].startedAt == Some(claimedAt) && next.jobs[i].finishedAt == Some(finishedAt)
              && reply.Finished? && reply.job == Some(next.jobs[i])
              && (reply.error == None <==> Builds(outcome))
              && Contents(ArtifactsOf(next.artifacts, s.jobs[i].id))
                 == (if Builds(outcome) then Drafts(s.jobs[i], outcome.parsed.value.artifacts) else [])
  {
    var i := QueuedIndex(s.jobs);
    if i < |s.jobs| {
      var claimed, job := ClaimedStore(s, runner, claimedAt);
      RunsOn(s, claimed, job, runner, outcome, claimedAt, finishedAt);
      SettledFinishes(claimed, i, outcome, finishedAt);
      var next := Settled(claimed, job, outcome, finishedAt).0;
      assert s.jobs[i := job][i := next.jobs[i]] == s.jobs[i := next.jobs[i]];
      SameDrafts(s.jobs[i], job, if Builds(outcome) then outcome.parsed.value.artifacts else []);
    }
  }

  // The store after a claim, in which the claimed job is still found first.
  lemma ClaimedStore(s: Store, runner: string, at: int) returns (claimed: Store, job: Job)
    requires Runnable(s) && QueuedIndex(s.jobs) < |s.jobs|
    ensures var i := QueuedIndex(s.jobs);
            && job == s.jobs[i].(status := Running, runner := runner, startedAt := Some(at))
            && claimed == s.(jobs := s.jobs[i := job]) && ClaimJob(s, runner, at) == Ok((claimed, job))
            && JobIndex(claimed.jobs, job.id) == i && claimed.jobs[i] == job
            && 0 < job.id && job.platform != "" && ArtifactsOf(claimed.artifacts, job.id) == []
            && FindProfile(claimed, job.profileId).Some?
  {
    var i := QueuedIndex(s.jobs);
    job := s.jobs[i].(status := Running, runner := runner, startedAt := Some(at));
    claimed := s.(jobs := s.jobs[i := job]);
    SameIndex(s.jobs, i, job);
    assert FindProfile(claimed, job.profileId) == FindProfile(s, job.profileId);
  }

  // With the profile there, the run goes on from the claim.
  lemma RunsOn(s: Store, claimed: Store, job: Job, runner: string, outcome: Outcome, claimedAt: int, finishedAt: int)
    requires ClaimJob(s, runner, claimedAt) == Ok((claimed, job)) && FindProfile(claimed, job.profileId).Some?
    ensures NextRun(s, runner, outcome, claimedAt, finishedAt) == Settled(claimed, job, outcome, finishedAt)
  {
  }

  lemma SameDrafts(a: Job, b: Job, builts: seq<Built>)
    requires a.id == b.id && a.platform == b.platform
    ensures Drafts(a, builts) == Drafts(b, builts)
  {
  }

  // Job `after` is job `before` finished.
  predicate FinishedFrom(before: Job, after: Job, status: JobStatus, at: int) {
    after == before.(status := status, finishedAt := Some(at),
                     logPath := after.logPath, errorMessage := after.errorMessage)
  }

  // The part after the claim: job i is running and nothing is recorded for it yet.
  lemma SettledFinishes(s: Store, i: nat, outcome: Outcome, at: int)
    requires i < |s.jobs| && JobIndex(s.jobs, s.jobs[i].id) == i
    requires 0 < s.jobs[i].id && s.jobs[i].platform != "" && ArtifactsOf(s.artifacts, s.jobs[i].id) == []
    ensures var (next, reply) := Settled(s, s.jobs[i], outcome, at);
            && |next.jobs| == |s.jobs| && next.profiles == s.profiles
            && FinishedFrom(s.jobs[i], next.jobs[i], if Builds(outcome) then Succeeded else Failed, at)
            && next.jobs == s.jobs[i := next.jobs[i]]
            && reply.Finished? && reply.job == Some(next.jobs[i])
            && (reply.error == None <==> Builds(outcome))
            && Contents(ArtifactsOf(next.artifacts, s.jobs[i].id))
               == Drafts(s.jobs[i], if Builds(outcome) then outcome.parsed.value.artifacts else [])
  {
    var job := s.jobs[i];
    if Builds(outcome) {
      var result := outcome.parsed.value;
      PublishSucceeds(s, job, result.artifacts);
      PublishRecords(s, job, result.artifacts, job.id);
      var (published, artifacts, _) := Publish(s, job, result.artifacts);
      assert ArtifactsOf(published.artifacts, job.id) == artifacts;
      FinishReplaces(published, i, Succeeded, result.buildLog, "", at);
    } else {
      FinishFailed(s, i, outcome, at);
    }
  }

  lemma FinishFailed(s: Store, i: nat, outcome: Outcome, at: int)
    requires i < |s.jobs| && JobIndex(s.jobs, s.jobs[i].id) == i && !Builds(outcome)
    ensures var (next, reply) := Settled(s, s.jobs[i], outcome, at);
            && |next.jobs| == |s.jobs| && next.profiles == s.profiles && next.artifacts == s.artifacts
            && FinishedFrom(s.jobs[i], next.jobs[i], Failed, at)
            && next.jobs == s.jobs[i := next.jobs[i]]
            && reply.Finished? && reply.job == Some(next.jobs[i]) && reply.error.Some?
  {
  }

  lemma FinishReplaces(s: Store, i: nat, status: JobStatus, logPath: string, message: string, at: int)
    requires i < |s.jobs| && JobIndex(s.jobs, s.jobs[i].id) == i
    ensures var job := s.jobs[i].(status := status, logPath := logPath,
                                  errorMessage := message, finishedAt := Some(at));
            FinishJob(s, s.jobs[i].id, status, logPath, message, at) == Ok((s.(jobs := s.jobs[i := job]), job))
  {
  }

  // Overwriting a job in place leaves it the first one with its identifier.
  lemma SameIndex(jobs: seq<Job>, i: nat, job: Job)
    requires i < |jobs| && jobs[i].id == job.id
    requires forall j, k :: 0 <= j < k < |jobs| ==> jobs[j].id != jobs[k].id
    ensures JobIndex(jobs[i := job], job.id) == i
  {
    var r := JobIndex(jobs[i := job], job.id);
    assert jobs[i := job][i].id == job.id;
  }

  // An artifact says which job and platform it is for, where the file is and what is in it.
  lemma DraftsDescribe(job: Job, builts: seq<Built>, k: nat)
    requires k < |builts|
    ensures var artifact, built := Drafts(job, builts)[k], builts[k];
            && artifact.buildJobId == job.id && artifact.platform == job.platform
            && artifact.localPath == built.path && artifact.filename == Base(built.path)
            && artifact.sha256 == built.sha256 && artifact.sizeBytes == built.sizeBytes
            && artifact.createdAt == built.recordedAt
  {
  }

  // The log kept and the message written for the job, and the error reported to the caller.
  // What the builder printed on its error stream, if it is not blank, comes before its error.
  predicate Tells(outcome: Outcome, logPath: string, message: string, error: Option<string>) {
    match outcome
    case NotPrepared(reason) => logPath == "" && message == reason && error == Some(reason)
    case Ran(Some(failure), stderr, parsed) =>
      && logPath == (match parsed case Ok(result) => result.buildLog case Err(_) => "")
      && message == (if IsBlank(stderr) then failure else TrimSpace(stderr))
      && error == Some(failure)
    case Ran(None, _, Err(failure)) => logPath == "" && message == failure && error == Some(failure)
    case Ran(None, _, Ok(result)) => logPath == result.buildLog && message == "" && error == None
  }

  lemma FailureTells(s: Store, i: nat, outcome: Outcome, at: int)
    requires i < |s.jobs| && JobIndex(s.jobs, s.jobs[i].id) == i && !Builds(outcome)
    ensures var (next, reply) := Settled(s, s.jobs[i], outcome, at);
            && i < |next.jobs| && reply.Finished? && reply.artifacts == []
            && next.jobs[i].runner == s.jobs[i].runner
            && Tells(outcome, next.jobs[i].logPath, next.jobs[i].errorMessage, reply.error)
  {
    if outcome.Ran? {
      TrimsToNothing(outcome.stderr);
    }
  }

  lemma SuccessTells(s: Store, i: nat, outcome: Outcome, at: int)
    requires i < |s.jobs| && JobIndex(s.jobs, s.jobs[i].id) == i && Builds(outcome)
    requires 0 < s.jobs[i].id && s.jobs[i].platform != ""
    ensures var (next, reply) := Settled(s, s.jobs[i], outcome, at);
            && i < |next.jobs| && reply.Finished?
            && Contents(reply.artifacts) == Drafts(s.jobs[i], outcome.parsed.value.artifacts)
            && next.jobs[i].runner == s.jobs[i].runner
            && Tells(outcome, next.jobs[i].logPath, next.jobs[i].errorMessage, reply.error)
  {
    var result := outcome.parsed.value;
    PublishSucceeds(s, s.jobs[i], result.artifacts);
    FinishReplaces(Publish(s, s.jobs[i], result.artifacts).0, i, Succeeded, result.buildLog, "", at);
  }

  // The job that a run settles says who ran it, where its log is and what went wrong, and the
  // caller is told the artifacts and the error.
  lemma RunOnceTells(s: Store, runner: string, outcome: Outcome, claimedAt: int, finishedAt: int)
    requires Runnable(s) && QueuedIndex(s.jobs) < |s.jobs|
    ensures var (next, reply) := NextRun(s, runner, outcome, claimedAt, finishedAt);
            var i := QueuedIndex(s.jobs);
            && i < |next.jobs| && reply.Finished? && next.jobs[i].runner == runner
            && Tells(outcome, next.jobs[i].logPath, next.jobs[i].errorMessage, reply.error)
            && Contents(reply.artifacts)
               == Drafts(s.jobs[i], if Builds(outcome) then outcome.parsed.value.artifacts else [])
  {
    var i := QueuedIndex(s.jobs);
    var claimed, job := ClaimedStore(s, runner, claimedAt);
    RunsOn(s, claimed, job, runner, outcome, claimedAt, finishedAt);
    SameDrafts(s.jobs[i], job, if Builds(outcome) then outcome.parsed.value.artifacts else []);
    if Builds(outcome) {
      SuccessTells(claimed, i, outcome, finishedAt);
    } else {
      FailureTells(claimed, i, outcome, finishedAt);
    }
  }

  // A claimed job whose profile has gone is failed with nothing recorded.
  lemma FailsWithoutProfile(s: Store, runner: string, outcome: Outcome, claimedAt: int, finishedAt: int)
    requires QueuedIndex(s.jobs) < |s.jobs| && !HasProfile(s.profiles, s.jobs[QueuedIndex(s.jobs)].profileId)
    requires forall j, k :: 0 <= j < k < |s.jobs| ==> s.jobs[j].id != s.jobs[k].id
    ensures var (next, reply) := NextRun(s, runner, outcome, claimedAt, finishedAt);
            var i := QueuedIndex(s.jobs);
            var job := s.jobs[i].(status := Failed, runner := runner, startedAt := Some(claimedAt), logPath := "",
                                  errorMessage := "build profile not found", finishedAt := Some(finishedAt));
            next == s.(jobs := s.jobs[i := job]) && reply == Finished(Some(job), [], Some("not found"))
  {
    var i := QueuedIndex(s.jobs);
    var job := s.jobs[i].(status := Running, runner := runner, startedAt := Some(claimedAt));
    var claimed := s.(jobs := s.jobs[i := job]);
    SameIndex(s.jobs, i, job);
    ProfileIsFound(claimed, job.profileId);
    FinishReplaces(claimed, i, Failed, "", "build profile not found", finishedAt);
    var failed := claimed.jobs[i].(status := Failed, logPath := "", errorMessage := "build profile not found",
                                   finishedAt := Some(finishedAt));
    assert claimed.jobs[i := failed] == s.jobs[i := failed];
  }

  lemma RunOnceLeavesOthersArtifacts(
        s: Store, runner: string, outcome: Outcome, claimedAt: int, finishedAt: int, other: int)
    requires Runnable(s)
    requires QueuedIndex(s.jobs) < |s.jobs| ==> s.jobs[QueuedIndex(s.jobs)].id != other
    ensures ArtifactsOf(NextRun(s, runner, outcome, claimedAt, finishedAt).0.artifacts, other)
            == ArtifactsOf(s.artifacts, other)
  {
    var i := QueuedIndex(s.jobs);
    if i < |s.jobs| {
      var claimed, job := ClaimedStore(s, runner, claimedAt);
      RunsOn(s, claimed, job, runner, outcome, claimedAt, finishedAt);
      if Builds(outcome) {
        var result := outcome.parsed.value;
        PublishSucceeds(claimed, job, result.artifacts);
        PublishRecords(claimed, job, result.artifacts, other);
        FinishReplaces(Publish(claimed, job, result.artifacts).0, i, Succeeded, result.buildLog, "", finishedAt);
      } else {
        FinishFailed(claimed, i, outcome, finishedAt);
      }
    }
  }

  // One job moved on from waiting, with nothing recorded for the others.
  lemma StaysRunnable(s: Store, next: Store, i: nat)
    requires Runnable(s) && i < |s.jobs| && |next.jobs| == |s.jobs| && next.profiles == s.profiles
    requires next.jobs == s.jobs[i := next.jobs[i]] && next.jobs[i].status != Queued
    requires next.jobs[i].id == s.jobs[i].id && next.jobs[i].platform == s.jobs[i].platform
    requires next.jobs[i].profileId == s.jobs[i].profileId
    requires forall k :: 0 <= k < |s.jobs| && k != i ==>
               ArtifactsOf(next.artifacts, s.jobs[k].id) == ArtifactsOf(s.artifacts, s.jobs[k].id)
    ensures Runnable(next)
  {
    forall k | 0 <= k < |next.jobs|
      ensures next.jobs[k].id == s.jobs[k].id && next.jobs[k].platform == s.jobs[k].platform
      ensures FindProfile(next, next.jobs[k].profileId) == FindProfile(s, s.jobs[k].profileId)
      ensures next.jobs[k].status == Queued ==> k != i && next.jobs[k] == s.jobs[k]
    {
    }
  }

  lemma RunOnceKeepsRunnable(s: Store, runner: string, outcome: Outcome, claimedAt: int, finishedAt: int)
    requires Runnable(s)
    ensures Runnable(NextRun(s, runner, outcome, claimedAt, finishedAt).0)
  {
    var next, i := NextRun(s, runner, outcome, claimedAt, finishedAt).0, QueuedIndex(s.jobs);
    RunOnceSettlesOneJob(s, runner, outcome, claimedAt, finishedAt);
    if i < |s.jobs| {
      forall k | 0 <= k < |s.jobs| && k != i
        ensures ArtifactsOf(next.artifacts, s.jobs[k].id) == ArtifactsOf(s.artifacts, s.jobs[k].id)
      {
        RunOnceLeavesOthersArtifacts(s, runner, outcome, claimedAt, finishedAt, s.jobs[k].id);
      }
      StaysRunnable(s, next, i);
    }
  }

  // ------------------------------------------------------------------------
  // Draining the queue.

  function Waiting(jobs: seq<Job>): nat {
    if jobs == [] then 0 else Waiting(jobs[1..]) + if jobs[0].status == Queued then 1 else 0
  }

  lemma {:induction false} WaitingDrops(jobs: seq<Job>, i: nat, job: Job)
    requires i < |jobs| && jobs[i].status == Queued && job.status != Queued
    ensures Waiting(jobs[i := job]) == Waiting(jobs) - 1
  {
    if i == 0 {
      assert jobs[0 := job][1..] == jobs[1..];
    } else {
      WaitingDrops(jobs[1..], i - 1, job);
      assert jobs[i := job][1..] == jobs[1..][i - 1 := job];
    }
  }

  lemma {:induction false} NoneWaiting(jobs: seq<Job>)
    ensures Waiting(jobs) == 0 <==> QueuedIndex(jobs) == |jobs|
  {
    if jobs != [] {
      NoneWaiting(jobs[1..]);
    }
  }

  datatype Turn = Turn(runner: string, outcome: Outcome, claimedAt: int, finishedAt: int)

  function RunTurns(s: Store, turns: seq<Turn>): Store {
    if turns == [] then s
    else
      var t := Last(turns);
      NextRun(RunTurns(s, Front(turns)), t.runner, t.outcome, t.claimedAt, t.finishedAt).0
  }

  lemma {:induction false} TurnsDrain(s: Store, turns: seq<Turn>)
    requires Runnable(s) && |turns| <= Waiting(s.jobs)
    ensures Runnable(RunTurns(s, turns))
    ensures Waiting(RunTurns(s, turns).jobs) == Waiting(s.jobs) - |turns|
  {
    if turns != [] {
      var t, before := Last(turns), RunTurns(s, Front(turns));
      TurnsDrain(s, Front(turns));
      RunOnceSettlesOneJob(before, t.runner, t.outcome, t.claimedAt, t.finishedAt);
      RunOnceKeepsRunnable(before, t.runner, t.outcome, t.claimedAt, t.finishedAt);
      NoneWaiting(before.jobs);
      var next := RunTurns(s, turns);
      WaitingDrops(before.jobs, QueuedIndex(before.jobs), next.jobs[QueuedIndex(before.jobs)]);
    }
  }

  // However the builder behaves, the next run finds no waiting job exactly when as many
  // runs as there were waiting jobs have gone before it.
  lemma QueueDrainsInExactlyItsLength(s: Store, turns: seq<Turn>, t: Turn)
    requires Runnable(s) && |turns| <= Waiting(s.jobs)
    ensures NextRun(RunTurns(s, turns), t.runner, t.outcome, t.claimedAt, t.finishedAt).1 == NoQueuedJobs
            <==> |turns| == Waiting(s.jobs)
  {
    TurnsDrain(s, turns);
    var before := RunTurns(s, turns);
    NoneWaiting(before.jobs);
    RunOnceSettlesOneJob(before, t.runner, t.outcome, t.claimedAt, t.finishedAt);
  }
}
