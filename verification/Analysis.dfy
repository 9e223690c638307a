/** Analysis jobs: the job table and its transitions, and the checks a worker makes before it analyses. */
module Analysis {
  import opened Wrappers

  datatype Status = Pending | Running | Successful | Failed | Cancelled

  /** Where an artifact is stored: one name per job. */
  datatype ObjectKey = ObjectKey(jobId: nat, name: string)

  type Summary = string

  datatype Job = Job(
    channelId: int, plugin: string, status: Status,
    resultKey: Option<ObjectKey>, resultSummary: Option<Summary>, error: Option<string>,
    startedAt: Option<int>, finishedAt: Option<int>)

  datatype Error = JobNotFound | NotRunning | NotCancellable

  type Jobs = map<nat, Job>

  const MAX_ERROR := 2000

  function NewJob(channelId: int, plugin: string): Job {
    Job(channelId, plugin, Pending, None, None, None, None, None)
  }

  function Started(j: Job, now: int): Job { j.(status := Running, startedAt := Some(now)) }

  function CancelledAt(j: Job, now: int): Job { j.(status := Cancelled, finishedAt := Some(now)) }

  function Succeeded(j: Job, key: Option<ObjectKey>, summary: Option<Summary>, now: int): Job {
    j.(status := Successful, resultKey := key, resultSummary := summary, finishedAt := Some(now))
  }

  function FailedWith(j: Job, error: string, now: int): Job {
    var kept := if |error| <= MAX_ERROR then error else error[..MAX_ERROR];
    j.(status := Failed, error := Some(kept), finishedAt := Some(now))
  }

  predicate Cancellable(s: Status) { s == Pending || s == Running }

  class JobTable {
    var jobs: Jobs
    var nextId: nat

    ghost predicate Valid()
      reads this
    {
      forall id :: id in jobs ==> id < nextId
    }

    constructor ()
      ensures Valid() && jobs == map[]
    {
      jobs, nextId := map[], 0;
    }

    method CreateJob(channelId: int, plugin: string) returns (id: nat)
      requires Valid()
      modifies this
      ensures Valid() && id !in old(jobs)
      ensures jobs == old(jobs)[id := Job(channelId, plugin, Pending, None, None, None, None, None)]
    {
      id := nextId;
      jobs, nextId := jobs[id := NewJob(channelId, plugin)], nextId + 1;
    }

    /** Only a pending job starts. */
    method MarkRunning(id: nat, now: int) returns (r: Result<(), Error>)
      requires Valid()
      modifies this
      ensures Valid()
      ensures r.Success? <==> id in old(jobs) && old(jobs)[id].status == Pending
      ensures r.Success? ==> jobs == old(jobs)[id := old(jobs)[id].(status := Running, startedAt := Some(now))]
      ensures r.Failure? ==> jobs == old(jobs)
      ensures r.Failure? ==> r.error == if id in old(jobs) then NotRunning else JobNotFound
    {
      if id !in jobs {
        return Failure(JobNotFound);
      }
      var job := jobs[id];
      if job.status != Pending {
        return Failure(NotRunning);
      }
      jobs := jobs[id := job.(status := Running, startedAt := Some(now))];
      return Success(());
    }

    /** Returns the status before cancelling. */
    method CancelJob(id: nat, now: int) returns (r: Result<Status, Error>)
      requires Valid()
      modifies this
      ensures Valid()
      ensures r.Success? <==> id in old(jobs) && old(jobs)[id].status in {Pending, Running}
      ensures r.Success? ==>
                && r.value == old(jobs)[id].status
                && jobs == old(jobs)[id := old(jobs)[id].(status := Cancelled, finishedAt := Some(now))]
      ensures r.Failure? ==> jobs == old(jobs)
      ensures r.Failure? ==> r.error == if id in old(jobs) then NotCancellable else JobNotFound
    {
      if id !in jobs {
        return Failure(JobNotFound);
      }
      var job := jobs[id];
      if job.status != Pending && job.status != Running {
        return Failure(NotCancellable);
      }
      var previous := job.status;
      jobs := jobs[id := job.(status := Cancelled, finishedAt := Some(now))];
      return Success(previous);
    }

    /** Unguarded: whatever the status was. */
    method MarkSuccess(id: nat, key: Option<ObjectKey>, summary: Option<Summary>, now: int)
      returns (r: Result<(), Error>)
      requires Valid()
      modifies this
      ensures Valid()
      ensures r.Success? <==> id in old(jobs)
      ensures r.Success? ==>
                jobs == old(jobs)[id := old(jobs)[id].(status := Successful, resultKey := key,
                                                       resultSummary := summary, finishedAt := Some(now))]
      ensures r.Failure? ==> jobs == old(jobs) && r.error == JobNotFound
    {
      if id !in jobs {
        return Failure(JobNotFound);
      }
      var job := jobs[id];
      job := job.(status := Successful);
      job := job.(resultKey := key);
      job := job.(resultSummary := summary);
      job := job.(finishedAt := Some(now));
      jobs := jobs[id := job];
      return Success(());
    }

    /** Unguarded as well. */
    method MarkFailed(id: nat, error: string, now: int) returns (r: Result<(), Error>)
      requires Valid()
      modifies this
      ensures Valid()
      ensures r.Success? <==> id in old(jobs)
      ensures r.Success? ==>
                jobs == old(jobs)[id := old(jobs)[id].(status := Failed, finishedAt := Some(now),
                                                       error := Some(if |error| <= 2000 then error
                                                                     else error[..2000]))]
      ensures r.Failure? ==> jobs == old(jobs) && r.error == JobNotFound
    {
      if id !in jobs {
        return Failure(JobNotFound);
      }
      var job := jobs[id];
      job := job.(status := Failed);
      job := job.(error := Some(if |error| <= MAX_ERROR then error else error[..MAX_ERROR]));
      job := job.(finishedAt := Some(now));
      jobs := jobs[id := job];
      return Success(());
    }
  }

  // ---------------------------------------------------------------- what a worker checks

  datatype Plugin = Plugin(inputChannels: nat, minSamples: nat)

  datatype Output = Output(artifact: Option<string>, summary: Summary)

  datatype Reason =
    | PluginNotFound
    | ChannelCountMismatch
    | ChannelMissing
    | CrossProject
    | InsufficientSamples(channelId: int, size: nat)
    | AnalysisError(message: string)

  /** What a worker finds: the plugin, the channels asked for and the job's own, the project of each existing channel,
      how many samples each has, and how the plugin's analysis ends. */
  datatype Inputs = Inputs(
    plugin: Option<Plugin>, asked: seq<int>, own: int, projects: map<int, int>, samples: int -> nat,
    analysis: Result<Output, string>)

  /** params.channel_ids, or the job's own channel when that is missing or empty. */
  function ChannelIds(asked: seq<int>, own: int): (ids: seq<int>)
    ensures ids != []
  {
    if asked == [] then [own] else asked
  }

  ghost predicate Distinct(ids: seq<int>) {
    forall i, j :: 0 <= i < j < |ids| ==> ids[i] != ids[j]
  }

  function SetOf(ids: seq<int>): set<int> { set c | c in ids }

  lemma {:induction false} DistinctIffFull(ids: seq<int>)
    ensures |SetOf(ids)| <= |ids|
    ensures |SetOf(ids)| == |ids| <==> Distinct(ids)
  {
    if ids != [] {
      var rest := ids[1..];
      DistinctIffFull(rest);
      assert SetOf(ids) == {ids[0]} + SetOf(rest);
      if ids[0] in rest {
        assert SetOf(ids) == SetOf(rest);
        var j :| 0 <= j < |rest| && rest[j] == ids[0];
        assert ids[j + 1] == ids[0];
      } else {
        if Distinct(rest) {
          forall i, j | 0 <= i < j < |ids| ensures ids[i] != ids[j] {
            assert ids[j] == rest[j - 1] && (i > 0 ==> ids[i] == rest[i - 1]);
          }
        }
        if Distinct(ids) {
          forall i, j | 0 <= i < j < |rest| ensures rest[i] != rest[j] {
            assert rest[i] == ids[i + 1] && rest[j] == ids[j + 1];
          }
        }
      }
    }
  }

  /** _resolve_channels. The query returns each existing channel once, so a channel asked for twice is reported as
      missing too. */
  method ResolveChannels(ids: seq<int>, projects: map<int, int>) returns (r: Result<(), Reason>)
    requires ids != []
    ensures var found := (forall k, l :: 0 <= k < l < |ids| ==> ids[k] != ids[l])
                         && forall c :: c in ids ==> c in projects;
            && (r.Success? <==> found && forall c, d :: c in ids && d in ids ==> projects[c] == projects[d])
            && (r.Failure? ==> r.error == if found then CrossProject else ChannelMissing)
  {
    var rows := set c | c in ids && c in projects;
    DistinctIffFull(ids);
    assert rows <= SetOf(ids);
    RowsFull(rows, SetOf(ids));
    if |rows| != |ids| {
      return Failure(ChannelMissing);
    }
    assert rows == SetOf(ids);
    var found := set c | c in rows :: projects[c];
    ManyProjects(rows, found, projects, ids[0]);
    if |found| > 1 {
      return Failure(CrossProject);
    }
    return Success(());
  }

  lemma RowsFull(rows: set<int>, all: set<int>)
    requires rows <= all
    ensures |rows| <= |all| && (|rows| == |all| <==> rows == all)
  {
    assert all == rows + (all - rows);
    assert |all| == |rows| + |all - rows|;
  }

  lemma ManyProjects(rows: set<int>, found: set<int>, projects: map<int, int>, one: int)
    requires rows <= projects.Keys && found == (set c | c in rows :: projects[c])
    requires one in rows
    ensures |found| > 1 <==> exists c :: c in rows && projects[c] != projects[one]
  {
    if c :| c in rows && projects[c] != projects[one] {
      assert {projects[c], projects[one]} <= found;
      RowsFull({projects[c], projects[one]}, found);
    } else {
      assert found == {projects[one]};
    }
  }

  datatype Decision = Fail(reason: Reason) | Proceed(output: Output)

  /** Everything a worker does between mark_running and the first guard. It proceeds exactly when nothing is wrong,
      and otherwise fails for the first thing that is; of several short channels, for the first one listed. */
  method Decide(i: Inputs) returns (d: Decision)
    ensures var ids := if i.asked == [] then [i.own] else i.asked;
            var counted := i.plugin.Some? && |ids| == i.plugin.value.inputChannels;
            var found := (forall k, l :: 0 <= k < l < |ids| ==> ids[k] != ids[l])
                         && forall c :: c in ids ==> c in i.projects;
            var together := found && forall c, e :: c in ids && e in ids ==> i.projects[c] == i.projects[e];
            var enough := counted && forall c :: c in ids ==> i.samples(c) >= i.plugin.value.minSamples;
            match d
            case Proceed(output) => counted && together && enough && i.analysis == Success(output)
            case Fail(PluginNotFound) => i.plugin.None?
            case Fail(ChannelCountMismatch) => i.plugin.Some? && !counted
            case Fail(ChannelMissing) => counted && !found
            case Fail(CrossProject) => counted && found && !together
            case Fail(InsufficientSamples(c, size)) =>
              && counted && together && size == i.samples(c) && size < i.plugin.value.minSamples
              && exists k :: 0 <= k < |ids| && ids[k] == c
                          && forall l :: 0 <= l < k ==> i.samples(ids[l]) >= i.plugin.value.minSamples
            case Fail(AnalysisError(m)) => counted && together && enough && i.analysis == Failure(m)
  {
    var ids := ChannelIds(i.asked, i.own);
    if i.plugin.None? {
      return Fail(PluginNotFound);
    }
    var plugin := i.plugin.value;
    if |ids| != plugin.inputChannels {
      return Fail(ChannelCountMismatch);
    }
    var resolved := ResolveChannels(ids, i.projects);
    if resolved.Failure? {
      return Fail(resolved.error);
    }
    for k := 0 to |ids|
      invariant forall l :: 0 <= l < k ==> i.samples(ids[l]) >= plugin.minSamples
    {
      var c := ids[k];
      if i.samples(c) < plugin.minSamples {
        return Fail(InsufficientSamples(c, i.samples(c)));
      }
    }
    assert forall c :: c in ids ==> exists l :: 0 <= l < |ids| && ids[l] == c;
    match i.analysis
    case Success(output) => return Proceed(output);
    case Failure(message) => return Fail(AnalysisError(message));
  }
}
