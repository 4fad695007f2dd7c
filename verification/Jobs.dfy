/**
 The registry of background jobs.  Every job runs on its own thread, which ends in three parts that other
 calls may come between: it looks at the cancel flag, it records the result under the lock, and it fires the
 done hook after the lock is released.
 */
module Jobs {
  import opened Wrappers

  /** Ids are minted from a counter; `job-7` is the number 7 here. */
  type Id = nat

  datatype JobState = Running | Completed | Failed | Killed {
    predicate Terminal() { !Running? }
  }

  datatype JobOutput = JobOutput(stdout: string, stderr: string, exit_code: Option<int>)

  const NO_OUTPUT := JobOutput("", "", None)

  datatype JobRecord = JobRecord(label_: string, state: JobState, started_ms: int, output: JobOutput)

  datatype JobSummary = JobSummary(id: Id, label_: string, state: JobState, started_ms: int, exit_code: Option<int>)

  datatype JobError = Refused | Unknown

  /** What a task returns. */
  datatype Outcome = Returned(output: JobOutput) | Raised(message: string)

  /** Where a job's thread is. */
  datatype Phase =
    | Working
    | Concluded(state: JobState, output: JobOutput)
    | Notifying(summary: Option<JobSummary>)
    | Gone

  datatype Registry = Registry(
    jobs: map<Id, JobRecord>, seq_: nat, shut_down: bool, hooked: bool,
    cancelled: set<Id>, threads: map<Id, Phase>, fired: seq<JobSummary>)

  function SummaryOf(id: Id, rec: JobRecord): JobSummary {
    JobSummary(id, rec.label_, rec.state, rec.started_ms, rec.output.exit_code)
  }

  function RunningIds(jobs: map<Id, JobRecord>): set<Id> {
    set id | id in jobs && jobs[id].state == Running
  }

  predicate CanStart(r: Registry, ceiling: nat) {
    !r.shut_down && |RunningIds(r.jobs)| < ceiling
  }

  function Started(r: Registry, label_: string, now: int): Registry {
    var id := r.seq_ + 1;
    r.(seq_ := id, jobs := r.jobs[id := JobRecord(label_, Running, now, NO_OUTPUT)],
      threads := r.threads[id := Working])
  }

  function KillOf(r: Registry, id: Id): Registry {
    if id !in r.jobs || r.jobs[id].state.Terminal() then r
    else r.(cancelled := r.cancelled + {id}, jobs := r.jobs[id := r.jobs[id].(state := Killed)])
  }

  function Removed(r: Registry, id: Id): Registry {
    if id in r.jobs && r.jobs[id].state.Terminal() then r.(jobs := r.jobs - {id}) else r
  }

  function ShutDown(r: Registry): Registry {
    r.(shut_down := true, cancelled := r.cancelled + RunningIds(r.jobs), jobs := map[])
  }

  /** The state and output a task's outcome stands for, given the cancel flag at that moment. */
  function Verdict(outcome: Outcome, cancelled: bool): (JobState, JobOutput) {
    match outcome
    case Returned(output) => (if cancelled then Killed else Completed, output)
    case Raised(message) => (Failed, JobOutput("", message, None))
  }

  function ThreadConcludes(r: Registry, id: Id, outcome: Outcome): Registry {
    if id !in r.threads || !r.threads[id].Working? then r
    else
      var v := Verdict(outcome, id in r.cancelled);
      r.(threads := r.threads[id := Concluded(v.0, v.1)])
  }

  /** `finish_locked` on one record: a killed job stays killed. */
  function FinishedRecord(rec: JobRecord, state: JobState, output: JobOutput): JobRecord {
    rec.(state := if rec.state != Killed then state else Killed, output := output)
  }

  function ThreadFinishes(r: Registry, id: Id): Registry {
    if id !in r.threads || !r.threads[id].Concluded? then r
    else if id !in r.jobs then r.(threads := r.threads[id := Notifying(None)])
    else
      var rec := FinishedRecord(r.jobs[id], r.threads[id].state, r.threads[id].output);
      r.(jobs := r.jobs[id := rec], threads := r.threads[id := Notifying(Some(SummaryOf(id, rec)))])
  }

  function ThreadNotifies(r: Registry, id: Id): Registry {
    if id !in r.threads || !r.threads[id].Notifying? then r
    else
      var summary := r.threads[id].summary;
      r.(threads := r.threads[id := Gone],
         fired := if r.hooked && summary.Some? then r.fired + [summary.value] else r.fired)
  }

  datatype Action =
    | Start(label_: string, ceiling: nat, now: int)
    | Kill(id: Id)
    | Remove(id: Id)
    | Shutdown
    | OnJobDone
    | Conclude(id: Id, outcome: Outcome)
    | Finish(id: Id)
    | Notify(id: Id)

  function Step(r: Registry, a: Action): Registry {
    match a
    case Start(label_, ceiling, now) => if CanStart(r, ceiling) then Started(r, label_, now) else r
    case Kill(id) => KillOf(r, id)
    case Remove(id) => Removed(r, id)
    case Shutdown => ShutDown(r)
    case OnJobDone => r.(hooked := true)
    case Conclude(id, outcome) => ThreadConcludes(r, id, outcome)
    case Finish(id) => ThreadFinishes(r, id)
    case Notify(id) => ThreadNotifies(r, id)
  }

  /** Any interleaving of calls and thread steps. */
  function After(r: Registry, run: seq<Action>): Registry {
    if run == [] then r else Step(After(r, run[..|run| - 1]), run[|run| - 1])
  }

  const EMPTY := Registry(map[], 0, false, false, {}, map[], [])

  // ----- What holds at every moment.

  /** A thread's progress, the cancel flag and the record agree. */
  ghost predicate ThreadAgrees(r: Registry, id: Id)
    requires id in r.threads
  {
    match r.threads[id]
    case Working => id in r.jobs ==> r.jobs[id].state in {Running, Killed}
    case Concluded(state, _) =>
      && state.Terminal() && (state == Killed ==> id in r.cancelled)
      && (id in r.jobs ==> r.jobs[id].state in {Running, Killed})
    case Notifying(summary) =>
      && (summary.Some? ==> Truthful(r, summary.value) && summary.value.id == id)
      && (id in r.jobs ==> r.jobs[id].state.Terminal())
    case Gone => id in r.jobs ==> r.jobs[id].state.Terminal()
  }

  /** A summary that is, or is about to be, announced. */
  ghost predicate Truthful(r: Registry, s: JobSummary) {
    && s.state.Terminal()
    && (s.id in r.cancelled ==> s.state == Killed)
    && (s.id in r.jobs ==> s == SummaryOf(s.id, r.jobs[s.id]))
  }

  ghost predicate JobAgrees(r: Registry, id: Id) {
    && (id in r.jobs || id in r.cancelled ==> id in r.threads)
    && (id in r.threads ==> 1 <= id <= r.seq_ && ThreadAgrees(r, id))
    && (id in r.jobs ==> (r.jobs[id].state == Killed <==> id in r.cancelled))
  }

  ghost predicate HookAgrees(r: Registry) {
    && (forall i :: 0 <= i < |r.fired| ==>
          r.fired[i].id in r.threads && r.threads[r.fired[i].id].Gone? && Truthful(r, r.fired[i]))
    && (forall i, j :: 0 <= i < j < |r.fired| ==> r.fired[i].id != r.fired[j].id)
  }

  ghost predicate Consistent(r: Registry) {
    (forall id: Id :: JobAgrees(r, id)) && HookAgrees(r)
  }

  /** What a step may do to a job: end it once, and never bring it back. */
  ghost predicate Evolves(r: Registry, r': Registry, id: Id) {
    && r.seq_ <= r'.seq_ && r.cancelled <= r'.cancelled
    && (id in r.jobs && id in r'.jobs && r.jobs[id].state.Terminal() ==>
          r'.jobs[id].state == r.jobs[id].state && (r.jobs[id].state != Killed ==> r'.jobs[id] == r.jobs[id]))
    && (id <= r.seq_ && id !in r.jobs ==> id !in r'.jobs)
  }

  /** One step for job `id`. */
  ghost predicate Advances(r: Registry, r': Registry, id: Id) {
    JobAgrees(r', id) && Evolves(r, r', id)
  }

  lemma StartAdvances(r: Registry, label_: string, now: int, id: Id)
    requires JobAgrees(r, id)
    ensures Advances(r, Started(r, label_, now), id)
  {
  }

  lemma KillAdvances(r: Registry, x: Id, id: Id)
    requires JobAgrees(r, id)
    ensures Advances(r, KillOf(r, x), id)
  {
  }

  lemma RemoveAdvances(r: Registry, x: Id, id: Id)
    requires JobAgrees(r, id)
    ensures Advances(r, Removed(r, x), id)
  {
  }

  lemma ShutdownAdvances(r: Registry, id: Id)
    requires JobAgrees(r, id)
    ensures Advances(r, ShutDown(r), id)
  {
  }

  lemma ConcludeAdvances(r: Registry, x: Id, outcome: Outcome, id: Id)
    requires JobAgrees(r, id)
    ensures Advances(r, ThreadConcludes(r, x, outcome), id)
  {
  }

  lemma FinishAdvances(r: Registry, x: Id, id: Id)
    requires JobAgrees(r, id)
    ensures Advances(r, ThreadFinishes(r, x), id)
  {
  }

  lemma NotifyAdvances(r: Registry, x: Id, id: Id)
    requires JobAgrees(r, id)
    ensures Advances(r, ThreadNotifies(r, x), id)
  {
  }

  lemma StepKeepsJob(r: Registry, a: Action, id: Id)
    requires JobAgrees(r, id)
    ensures JobAgrees(Step(r, a), id) && Evolves(r, Step(r, a), id)
  {
    match a
    case Start(label_, _, now) => StartAdvances(r, label_, now, id);
    case Kill(x) => KillAdvances(r, x, id);
    case Remove(x) => RemoveAdvances(r, x, id);
    case Shutdown => ShutdownAdvances(r, id);
    case OnJobDone =>
    case Conclude(x, outcome) => ConcludeAdvances(r, x, outcome, id);
    case Finish(x) => FinishAdvances(r, x, id);
    case Notify(x) => NotifyAdvances(r, x, id);
  }

  lemma FiredStaysTruthful(r: Registry, a: Action, i: nat)
    requires Consistent(r) && i < |r.fired|
    ensures var r' := Step(r, a);
            i < |r'.fired| && r'.fired[i] == r.fired[i] && r.fired[i].id in r'.threads &&
            r'.threads[r.fired[i].id].Gone? && Truthful(r', r.fired[i])
  {
    assert JobAgrees(r, r.fired[i].id);
  }

  lemma StepKeepsHook(r: Registry, a: Action)
    requires Consistent(r)
    ensures HookAgrees(Step(r, a))
  {
    var r' := Step(r, a);
    forall i | 0 <= i < |r.fired|
      ensures i < |r'.fired| && r'.fired[i] == r.fired[i] && r.fired[i].id in r'.threads &&
              r'.threads[r.fired[i].id].Gone? && Truthful(r', r.fired[i])
    {
      FiredStaysTruthful(r, a, i);
    }
    if a.Notify? && |r'.fired| > |r.fired| {
      assert JobAgrees(r, a.id);
      var s := r.threads[a.id].summary.value;
      assert r'.fired == r.fired + [s] && s.id == a.id && Truthful(r', s);
      assert forall i :: 0 <= i < |r.fired| ==> r.fired[i].id != a.id;
    } else {
      assert r'.fired == r.fired;
    }
  }

  lemma StepConsistent(r: Registry, a: Action)
    requires Consistent(r)
    ensures Consistent(Step(r, a))
  {
    forall id: Id ensures JobAgrees(Step(r, a), id) {
      StepKeepsJob(r, a, id);
    }
    StepKeepsHook(r, a);
  }

  lemma EvolvesFurther(r: Registry, mid: Registry, end: Registry, id: Id)
    requires JobAgrees(r, id) && Evolves(r, mid, id) && Evolves(mid, end, id)
    ensures Evolves(r, end, id)
  {
  }

  /** Over every interleaving the registry stays consistent and each job only moves forward. */
  lemma {:induction false} RunEvolves(r: Registry, run: seq<Action>, id: Id)
    requires Consistent(r)
    ensures Consistent(After(r, run)) && Evolves(r, After(r, run), id)
  {
    if run != [] {
      var front := run[..|run| - 1];
      RunEvolves(r, front, id);
      assert JobAgrees(r, id) && JobAgrees(After(r, front), id);
      StepKeepsJob(After(r, front), run[|run| - 1], id);
      EvolvesFurther(r, After(r, front), After(r, run), id);
      StepConsistent(After(r, front), run[|run| - 1]);
    }
  }

  lemma EmptyConsistent()
    ensures Consistent(EMPTY)
  {
  }

  // ----- The promises.

  function StatusOf(r: Registry, id: Id): Result<JobSummary, JobError> {
    if id in r.jobs then Ok(SummaryOf(id, r.jobs[id])) else Err(Unknown)
  }

  /**
   A kill that meets a running job wins every race: whatever the thread had concluded by then and whatever
   happens later, every status and every announcement of the job says `Killed`.
   */
  lemma KillIsObserved(before: seq<Action>, id: Id, later: seq<Action>)
    requires id in After(EMPTY, before).jobs && After(EMPTY, before).jobs[id].state == Running
    ensures var end := After(Step(After(EMPTY, before), Kill(id)), later);
            (StatusOf(end, id).Err? || StatusOf(end, id).value.state == Killed) &&
            forall i :: 0 <= i < |end.fired| && end.fired[i].id == id ==> end.fired[i].state == Killed
  {
    EmptyConsistent();
    RunEvolves(EMPTY, before, id);
    var r := After(EMPTY, before);
    StepConsistent(r, Kill(id));
    RunEvolves(Step(r, Kill(id)), later, id);
    assert id in Step(r, Kill(id)).cancelled;
  }

  /** A terminal state never changes; a job that ended by itself never changes at all, nor comes back once removed. */
  lemma TerminalIsFinal(before: seq<Action>, id: Id, later: seq<Action>)
    ensures var r := After(EMPTY, before);
            var end := After(r, later);
            (id in r.jobs && id in end.jobs && r.jobs[id].state.Terminal() ==>
               end.jobs[id].state == r.jobs[id].state &&
               (r.jobs[id].state != Killed ==> end.jobs[id] == r.jobs[id])) &&
            (id <= r.seq_ && id !in r.jobs ==> id !in end.jobs)
  {
    EmptyConsistent();
    RunEvolves(EMPTY, before, id);
    RunEvolves(After(EMPTY, before), later, id);
  }

  /**
   At most one announcement per job, made after its thread is done, terminal, and never contradicted by its
   status.
   */
  lemma HookFiresOnce(run: seq<Action>)
    ensures var end := After(EMPTY, run);
            (forall i, j :: 0 <= i < j < |end.fired| ==> end.fired[i].id != end.fired[j].id) &&
            forall i :: 0 <= i < |end.fired| ==>
              end.fired[i].state.Terminal() &&
              (StatusOf(end, end.fired[i].id).Err? || StatusOf(end, end.fired[i].id) == Ok(end.fired[i]))
  {
    EmptyConsistent();
    RunEvolves(EMPTY, run, 0);
  }

  // ----- Which jobs are announced.

  /** Before action `k` of a run. */
  function Before(run: seq<Action>, k: nat): Registry
    requires k <= |run|
  {
    After(EMPTY, run[..k])
  }

  /** Action `k` starts job `id`. */
  predicate StartsAt(run: seq<Action>, k: nat, id: Id) {
    k < |run| && run[k].Start? && CanStart(Before(run, k), run[k].ceiling) && id == Before(run, k).seq_ + 1
  }

  /** At action `k` the task of `id` is over. */
  predicate ConcludesAt(run: seq<Action>, k: nat, id: Id) {
    k < |run| && run[k].Conclude? && run[k].id == id && id in Before(run, k).threads &&
    Before(run, k).threads[id].Working?
  }

  /** At action `k` the thread of `id` records its result. */
  predicate FinishesAt(run: seq<Action>, k: nat, id: Id) {
    k < |run| && run[k] == Finish(id) && id in Before(run, k).threads && Before(run, k).threads[id].Concluded?
  }

  /** At action `k` the thread of `id` comes to the hook. */
  predicate NotifiesAt(run: seq<Action>, k: nat, id: Id) {
    k < |run| && run[k] == Notify(id) && id in Before(run, k).threads && Before(run, k).threads[id].Notifying?
  }

  /** The action is a shutdown, or a `remove` of `id` that answers true. */
  predicate Forgets(r: Registry, a: Action, id: Id) {
    a.Shutdown? || (a == Remove(id) && id in r.jobs && r.jobs[id].state.Terminal())
  }

  predicate ForgetsAt(run: seq<Action>, k: nat, id: Id) {
    k < |run| && Forgets(Before(run, k), run[k], id)
  }

  ghost predicate ForgottenBetween(run: seq<Action>, a: nat, b: nat, id: Id) {
    exists k :: a < k < b && ForgetsAt(run, k, id)
  }

  ghost predicate HookedBefore(run: seq<Action>, n: nat) {
    exists k :: 0 <= k < n && k < |run| && run[k].OnJobDone?
  }

  ghost predicate Announced(r: Registry, id: Id) {
    exists i :: 0 <= i < |r.fired| && r.fired[i].id == id
  }

  /** One more action leaves the moments of a run where they were. */
  lemma MomentsStay(run: seq<Action>, a: Action, k: nat, id: Id)
    requires k < |run|
    ensures StartsAt(run + [a], k, id) == StartsAt(run, k, id) && FinishesAt(run + [a], k, id) == FinishesAt(run, k, id)
    ensures NotifiesAt(run + [a], k, id) == NotifiesAt(run, k, id) &&
            ForgetsAt(run + [a], k, id) == ForgetsAt(run, k, id)
  {
    assert (run + [a])[..k] == run[..k];
  }

  lemma ForgottenNext(run: seq<Action>, a: Action, s: nat, b: nat, id: Id)
    requires s < |run| && b <= |run|
    ensures ForgottenBetween(run + [a], s, b, id) == ForgottenBetween(run, s, b, id)
    ensures ForgottenBetween(run + [a], s, |run| + 1, id) <==>
              ForgottenBetween(run, s, |run|, id) || ForgetsAt(run + [a], |run|, id)
  {
    forall k | 0 <= k < |run| ensures ForgetsAt(run + [a], k, id) == ForgetsAt(run, k, id) {
      MomentsStay(run, a, k, id);
    }
  }

  lemma {:induction false} HookedMeansRegistered(run: seq<Action>)
    ensures After(EMPTY, run).hooked <==> HookedBefore(run, |run|)
  {
    if run != [] {
      var front := run[..|run| - 1];
      HookedMeansRegistered(front);
      assert run == front + [run[|run| - 1]];
    }
  }

  /** How far the thread of a started job has come, and when. */
  ghost predicate Biography(run: seq<Action>, id: Id, s: nat, f: nat, n: nat)
    requires id in After(EMPTY, run).threads
  {
    var r := After(EMPTY, run);
    StartsAt(run, s, id) &&
    match r.threads[id]
    case Working => (id in r.jobs <==> !ForgottenBetween(run, s, |run|, id)) && !Announced(r, id)
    case Concluded(_, _) => (id in r.jobs <==> !ForgottenBetween(run, s, |run|, id)) && !Announced(r, id)
    case Notifying(summary) =>
      && s < f && FinishesAt(run, f, id) && (summary.Some? <==> !ForgottenBetween(run, s, f, id))
      && (summary.Some? ==> summary.value.id == id) && !Announced(r, id)
    case Gone => GoneStory(run, id, s, f, n, Announced(r, id))
  }

  /** The hook speaks for `id` at the `Notify` of its thread and nowhere else. */
  lemma AnnouncedNext(r: Registry, a: Action, id: Id)
    requires Consistent(r)
    ensures Announced(Step(r, a), id) <==>
              Announced(r, id) ||
              (a == Notify(id) && id in r.threads && r.threads[id].Notifying? && r.threads[id].summary.Some? &&
               r.hooked)
  {
    if a.Notify? {
      assert JobAgrees(r, a.id);
      var fired := Step(r, a).fired;
      assert r.fired <= fired;
      if |fired| > |r.fired| {
        assert fired[|r.fired|].id == a.id;
      }
    }
  }

  /** Until its thread finishes, a job is in the registry as long as nothing forgets it. */
  lemma WorkingStep(r: Registry, a: Action, id: Id)
    requires Consistent(r) && id in r.threads && (r.threads[id].Working? || r.threads[id].Concluded?)
    ensures var r' := Step(r, a);
            id in r'.threads && Announced(r', id) == Announced(r, id) &&
            if a == Finish(id) && r.threads[id].Concluded? then
              r'.threads[id].Notifying? && (r'.threads[id].summary.Some? <==> id in r.jobs) &&
              (id in r.jobs ==> r'.threads[id].summary.value.id == id)
            else
              (r'.threads[id].Working? || r'.threads[id].Concluded?) &&
              (id in r'.jobs <==> id in r.jobs && !Forgets(r, a, id))
  {
    assert JobAgrees(r, id);
    AnnouncedNext(r, a, id);
  }

  lemma WorkingContinues(front: seq<Action>, a: Action, id: Id, s: nat, f: nat, n: nat) returns (f': nat)
    requires id in After(EMPTY, front).threads && Biography(front, id, s, f, n) && Consistent(After(EMPTY, front))
    requires var phase := After(EMPTY, front).threads[id]; phase.Working? || phase.Concluded?
    ensures id in After(EMPTY, front + [a]).threads && Biography(front + [a], id, s, f', n)
  {
    AfterNext(EMPTY, front, a);
    WorkingStep(After(EMPTY, front), a, id);
    assert (front + [a])[..|front|] == front;
    MomentsStay(front, a, s, id);
    ForgottenNext(front, a, s, |front|, id);
    f' := |front|;
  }

  lemma NotifyingStep(r: Registry, a: Action, id: Id)
    requires Consistent(r) && id in r.threads && r.threads[id].Notifying?
    ensures var r' := Step(r, a);
            id in r'.threads &&
            if a == Notify(id) then
              r'.threads[id].Gone? &&
              (Announced(r', id) <==> Announced(r, id) || (r.threads[id].summary.Some? && r.hooked))
            else r'.threads[id] == r.threads[id] && Announced(r', id) == Announced(r, id)
  {
    assert JobAgrees(r, id);
    AnnouncedNext(r, a, id);
  }

  lemma NotifyingContinues(front: seq<Action>, a: Action, id: Id, s: nat, f: nat, n: nat) returns (n': nat)
    requires id in After(EMPTY, front).threads && Biography(front, id, s, f, n) && Consistent(After(EMPTY, front))
    requires After(EMPTY, front).threads[id].Notifying?
    ensures id in After(EMPTY, front + [a]).threads && Biography(front + [a], id, s, f, n')
  {
    AfterNext(EMPTY, front, a);
    NotifyingStep(After(EMPTY, front), a, id);
    assert (front + [a])[..|front|] == front;
    MomentsStay(front, a, s, id);
    MomentsStay(front, a, f, id);
    ForgottenNext(front, a, s, f, id);
    HookedStays(front, a, |front|);
    HookedMeansRegistered(front);
    n' := |front|;
  }

  ghost predicate GoneStory(run: seq<Action>, id: Id, s: nat, f: nat, n: nat, announced: bool) {
    && s < f < n && StartsAt(run, s, id) && FinishesAt(run, f, id) && NotifiesAt(run, n, id)
    && (announced <==> HookedBefore(run, n) && !ForgottenBetween(run, s, f, id))
  }

  lemma GoneStoryStays(front: seq<Action>, a: Action, id: Id, s: nat, f: nat, n: nat, announced: bool)
    requires GoneStory(front, id, s, f, n, announced)
    ensures GoneStory(front + [a], id, s, f, n, announced)
  {
    MomentsStay(front, a, s, id);
    MomentsStay(front, a, f, id);
    MomentsStay(front, a, n, id);
    ForgottenNext(front, a, s, f, id);
    HookedStays(front, a, n);
  }

  lemma GoneStaysGone(r: Registry, a: Action, id: Id)
    requires Consistent(r) && id in r.threads && r.threads[id].Gone?
    ensures id in Step(r, a).threads && Step(r, a).threads[id].Gone?
    ensures Announced(Step(r, a), id) == Announced(r, id)
  {
    assert JobAgrees(r, id);
    AnnouncedNext(r, a, id);
  }

  lemma GoneStays(front: seq<Action>, a: Action, id: Id, s: nat, f: nat, n: nat)
    requires id in After(EMPTY, front).threads && Biography(front, id, s, f, n) && Consistent(After(EMPTY, front))
    requires After(EMPTY, front).threads[id].Gone?
    ensures id in After(EMPTY, front + [a]).threads && Biography(front + [a], id, s, f, n)
  {
    AfterNext(EMPTY, front, a);
    GoneStaysGone(After(EMPTY, front), a, id);
    GoneStoryStays(front, a, id, s, f, n, Announced(After(EMPTY, front), id));
  }

  lemma HookedStays(run: seq<Action>, a: Action, n: nat)
    requires n <= |run|
    ensures HookedBefore(run + [a], n) == HookedBefore(run, n)
  {
    assert forall k :: 0 <= k < n ==> (run + [a])[k] == run[k];
  }

  lemma AfterNext(r: Registry, run: seq<Action>, a: Action)
    ensures After(r, run + [a]) == Step(After(r, run), a)
  {
    assert (run + [a])[..|run|] == run;
  }

  lemma BiographyContinues(front: seq<Action>, a: Action, id: Id, s: nat, f: nat, n: nat) returns (f': nat, n': nat)
    requires id in After(EMPTY, front).threads && Biography(front, id, s, f, n) && Consistent(After(EMPTY, front))
    ensures id in After(EMPTY, front + [a]).threads && Biography(front + [a], id, s, f', n')
  {
    f', n' := f, n;
    match After(EMPTY, front).threads[id]
    case Working => f' := WorkingContinues(front, a, id, s, f, n);
    case Concluded(_, _) => f' := WorkingContinues(front, a, id, s, f, n);
    case Notifying(_) => n' := NotifyingContinues(front, a, id, s, f, n);
    case Gone => GoneStays(front, a, id, s, f, n);
  }

  lemma ThreadIsBorn(r: Registry, a: Action, id: Id)
    requires Consistent(r) && id !in r.threads && id in Step(r, a).threads
    ensures a.Start? && CanStart(r, a.ceiling) && id == r.seq_ + 1
    ensures Step(r, a).threads[id].Working? && id in Step(r, a).jobs && !Announced(Step(r, a), id)
  {
  }

  lemma BiographyBegins(front: seq<Action>, a: Action, id: Id)
    requires Consistent(After(EMPTY, front)) && id !in After(EMPTY, front).threads
    requires id in After(EMPTY, front + [a]).threads
    ensures Biography(front + [a], id, |front|, 0, 0)
  {
    AfterNext(EMPTY, front, a);
    ThreadIsBorn(After(EMPTY, front), a, id);
    assert (front + [a])[..|front|] == front;
  }

  lemma {:induction false} HasBiography(run: seq<Action>, id: Id) returns (s: nat, f: nat, n: nat)
    requires id in After(EMPTY, run).threads
    ensures Biography(run, id, s, f, n)
  {
    var front, last := run[..|run| - 1], run[|run| - 1];
    assert run == front + [last];
    EmptyConsistent();
    RunEvolves(EMPTY, front, id);
    if id in After(EMPTY, front).threads {
      s, f, n := HasBiography(front, id);
      f, n := BiographyContinues(front, last, id, s, f, n);
    } else {
      s, f, n := |front|, 0, 0;
      BiographyBegins(front, last, id);
    }
  }

  /** A thread only moves on. */
  function Progress(r: Registry, id: Id): nat {
    if id !in r.threads then 0
    else
      match r.threads[id]
      case Working => 1
      case Concluded(_, _) => 2
      case Notifying(_) => 3
      case Gone => 4
  }

  lemma StepProgress(r: Registry, a: Action, id: Id)
    requires Consistent(r)
    ensures Progress(r, id) <= Progress(Step(r, a), id)
    ensures a.Conclude? && a.id == id && Progress(r, id) == 1 ==> Progress(Step(r, a), id) == 2
    ensures a == Finish(id) && Progress(r, id) == 2 ==> Progress(Step(r, a), id) == 3
    ensures a == Notify(id) && Progress(r, id) == 3 ==> Progress(Step(r, a), id) == 4
    ensures a.Start? && CanStart(r, a.ceiling) && id == r.seq_ + 1 ==>
              Progress(r, id) == 0 && Progress(Step(r, a), id) == 1
  {
    assert JobAgrees(r, id);
  }

  lemma {:induction false} ProgressGrows(run: seq<Action>, j: nat, k: nat, id: Id)
    requires j <= k <= |run|
    ensures Progress(Before(run, j), id) <= Progress(Before(run, k), id)
    decreases k
  {
    if j < k {
      ProgressGrows(run, j, k - 1, id);
      AtNext(run, k - 1);
      StepProgress(Before(run, k - 1), run[k - 1], id);
    }
  }

  lemma AtNext(run: seq<Action>, k: nat)
    requires k < |run|
    ensures Consistent(Before(run, k)) && Before(run, k + 1) == Step(Before(run, k), run[k])
  {
    assert run[..k + 1] == run[..k] + [run[k]];
    AfterNext(EMPTY, run[..k], run[k]);
    EmptyConsistent();
    RunEvolves(EMPTY, run[..k], 0);
  }

  /** Each of the four moments comes once. */
  lemma MomentsAreUnique(run: seq<Action>, id: Id, j: nat, k: nat)
    requires j < k
    ensures !(StartsAt(run, j, id) && StartsAt(run, k, id))
    ensures !(ConcludesAt(run, j, id) && ConcludesAt(run, k, id))
    ensures !(FinishesAt(run, j, id) && FinishesAt(run, k, id))
    ensures !(NotifiesAt(run, j, id) && NotifiesAt(run, k, id))
  {
    if k < |run| {
      AtNext(run, j);
      AtNext(run, k);
      StepProgress(Before(run, j), run[j], id);
      StepProgress(Before(run, k), run[k], id);
      ProgressGrows(run, j + 1, k, id);
    }
  }

  /**
   In every run, a job whose thread is done has been announced if and only if the hook was registered before its thread
   came to it and neither a shutdown nor a successful `remove` had made the registry forget the job before its result
   was recorded.  The three moments exist and are unique.
   */
  lemma AnnouncedIffHookedAndRemembered(run: seq<Action>, id: Id)
    requires id in After(EMPTY, run).threads && After(EMPTY, run).threads[id].Gone?
    ensures exists s: nat, f: nat, n: nat ::
              s < f < n && StartsAt(run, s, id) && FinishesAt(run, f, id) && NotifiesAt(run, n, id)
    ensures forall s: nat, f: nat, n: nat ::
              StartsAt(run, s, id) && FinishesAt(run, f, id) && NotifiesAt(run, n, id) ==>
              (Announced(After(EMPTY, run), id) <==> HookedBefore(run, n) && !ForgottenBetween(run, s, f, id))
  {
    var s, f, n := HasBiography(run, id);
    forall s': nat, f': nat, n': nat | StartsAt(run, s', id) && FinishesAt(run, f', id) && NotifiesAt(run, n', id)
      ensures s' == s && f' == f && n' == n
    {
      SameMoment(run, id, s, s');
      SameMoment(run, id, f, f');
      SameMoment(run, id, n, n');
    }
  }

  lemma SameMoment(run: seq<Action>, id: Id, j: nat, k: nat)
    ensures StartsAt(run, j, id) && StartsAt(run, k, id) ==> j == k
    ensures FinishesAt(run, j, id) && FinishesAt(run, k, id) ==> j == k
    ensures NotifiesAt(run, j, id) && NotifiesAt(run, k, id) ==> j == k
  {
    if j < k {
      MomentsAreUnique(run, id, j, k);
    } else if k < j {
      MomentsAreUnique(run, id, k, j);
    }
  }

  // ----- How a job ends.

  ghost predicate KilledBetween(run: seq<Action>, a: nat, b: nat, id: Id) {
    exists k :: a < k < b && k < |run| && run[k] == Kill(id)
  }

  lemma ConcludeStep(r: Registry, a: Action, id: Id)
    requires Consistent(r) && id in r.threads
    ensures id in Step(r, a).threads
    ensures r.threads[id].Working? ==>
              if a.Conclude? && a.id == id then Step(r, a).threads[id].Concluded? else Step(r, a).threads[id].Working?
    ensures r.threads[id].Concluded? && a != Finish(id) ==> Step(r, a).threads[id] == r.threads[id]
  {
    assert JobAgrees(r, id);
  }

  lemma WorkingAfterStart(run: seq<Action>, s: nat, id: Id)
    requires StartsAt(run, s, id)
    ensures Progress(Before(run, s + 1), id) == 1
  {
    AtNext(run, s);
    StepProgress(Before(run, s), run[s], id);
  }

  lemma ProgressAfterStart(run: seq<Action>, s: nat, k: nat, id: Id)
    requires StartsAt(run, s, id) && s < k <= |run|
    ensures Progress(Before(run, k), id) >= 1
  {
    WorkingAfterStart(run, s, id);
    ProgressGrows(run, s + 1, k, id);
  }

  lemma ConcludedFrom(r: Registry, a: Action, id: Id)
    requires Consistent(r) && Progress(r, id) >= 1 && Progress(Step(r, a), id) == 2
    ensures Progress(r, id) == 2 || (a.Conclude? && a.id == id && r.threads[id].Working?)
  {
    StepProgress(r, a, id);
    ConcludeStep(r, a, id);
  }

  lemma ConcludedHere(run: seq<Action>, s: nat, k: nat, id: Id)
    requires StartsAt(run, s, id) && s < k < |run| && Progress(Before(run, k + 1), id) == 2
    ensures Progress(Before(run, k), id) == 2 || ConcludesAt(run, k, id)
  {
    AtNext(run, k);
    ProgressAfterStart(run, s, k, id);
    ConcludedFrom(Before(run, k), run[k], id);
  }

  /** The thread of a finished job has concluded before, after its start. */
  lemma {:induction false} FinishNeedsConclude(run: seq<Action>, s: nat, k: nat, id: Id) returns (c: nat)
    requires StartsAt(run, s, id) && s < k <= |run| && Progress(Before(run, k), id) == 2
    ensures s < c < k && ConcludesAt(run, c, id)
    decreases k
  {
    WorkingAfterStart(run, s, id);
    ConcludedHere(run, s, k - 1, id);
    if ConcludesAt(run, k - 1, id) {
      c := k - 1;
    } else {
      c := FinishNeedsConclude(run, s, k - 1, id);
    }
  }

  /** While its thread is at work a remembered job keeps its label and start, and is killed if a kill has come. */
  ghost predicate AtWork(r: Registry, id: Id, label_: string, now: int, killed: bool) {
    id in r.jobs ==>
      r.jobs[id].label_ == label_ && r.jobs[id].started_ms == now &&
      r.jobs[id].state == if killed then Killed else Running
  }

  lemma AtWorkStep(r: Registry, a: Action, id: Id, label_: string, now: int, killed: bool)
    requires Consistent(r) && Progress(r, id) in {1, 2} && Progress(Step(r, a), id) in {1, 2}
    requires AtWork(r, id, label_, now, killed)
    ensures AtWork(Step(r, a), id, label_, now, killed || a == Kill(id))
  {
    assert JobAgrees(r, id);
  }

  lemma KilledNext(run: seq<Action>, s: nat, k: nat, id: Id)
    requires s <= k < |run|
    ensures KilledBetween(run, s, k + 1, id) <==> KilledBetween(run, s, k, id) || (s < k && run[k] == Kill(id))
  {
  }

  lemma AtWorkNext(run: seq<Action>, s: nat, k: nat, id: Id, label_: string, now: int, killed: bool)
    requires StartsAt(run, s, id) && s < k < |run| && Progress(Before(run, k + 1), id) <= 2
    requires AtWork(Before(run, k), id, label_, now, killed)
    ensures AtWork(Before(run, k + 1), id, label_, now, killed || run[k] == Kill(id))
  {
    AtNext(run, k);
    ProgressAfterStart(run, s, k, id);
    ProgressAfterStart(run, s, k + 1, id);
    ProgressGrows(run, k, k + 1, id);
    AtWorkStep(Before(run, k), run[k], id, label_, now, killed);
  }

  lemma AtWorkAfterStart(run: seq<Action>, s: nat, id: Id)
    requires StartsAt(run, s, id)
    ensures AtWork(Before(run, s + 1), id, run[s].label_, run[s].now, false)
  {
    AtNext(run, s);
  }

  lemma {:induction false} AtWorkUntil(run: seq<Action>, s: nat, k: nat, id: Id)
    requires StartsAt(run, s, id) && s < k <= |run| && Progress(Before(run, k), id) <= 2
    ensures AtWork(Before(run, k), id, run[s].label_, run[s].now, KilledBetween(run, s, k, id))
    decreases k
  {
    if k == s + 1 {
      AtWorkAfterStart(run, s, id);
    } else {
      ProgressGrows(run, k - 1, k, id);
      AtWorkUntil(run, s, k - 1, id);
      AtWorkNext(run, s, k - 1, id, run[s].label_, run[s].now, KilledBetween(run, s, k - 1, id));
      KilledNext(run, s, k - 1, id);
    }
  }

  lemma {:induction false} ConcludedStays(run: seq<Action>, c: nat, k: nat, id: Id)
    requires ConcludesAt(run, c, id) && c < k <= |run| && Progress(Before(run, k), id) == 2
    ensures id in Before(run, c + 1).threads && Before(run, k).threads[id] == Before(run, c + 1).threads[id]
    ensures Before(run, c).cancelled <= Before(run, k).cancelled
    decreases k
  {
    AtNext(run, c);
    AtNext(run, k - 1);
    if k - 1 > c {
      ConcludeStep(Before(run, c), run[c], id);
      ProgressGrows(run, c + 1, k - 1, id);
      StepProgress(Before(run, k - 1), run[k - 1], id);
      ConcludedStays(run, c, k - 1, id);
      ConcludeStep(Before(run, k - 1), run[k - 1], id);
    }
    StepKeepsJob(Before(run, k - 1), run[k - 1], id);
  }

  /** What is reported of a job that returned or raised, killed or not. */
  ghost predicate EndsLike(outcome: Outcome, killed: bool, state: JobState, output: JobOutput) {
    && (state.Killed? <==> killed)
    && (state.Completed? <==> outcome.Returned? && !killed)
    && (state.Failed? <==> outcome.Raised? && !killed)
    && (outcome.Returned? ==> output == outcome.output)
    && (outcome.Raised? ==> output.stdout == "" && output.stderr == outcome.message && output.exit_code == None)
  }

  lemma FinishReports(run: seq<Action>, id: Id, s: nat, c: nat, f: nat)
    requires StartsAt(run, s, id) && ConcludesAt(run, c, id) && FinishesAt(run, f, id) && s < c < f
    requires id in Before(run, f).jobs
    ensures var r := Before(run, f + 1);
            id in r.jobs && id in r.threads && r.threads[id] == Notifying(Some(SummaryOf(id, r.jobs[id]))) &&
            r.jobs[id].label_ == run[s].label_ && r.jobs[id].started_ms == run[s].now &&
            EndsLike(run[c].outcome, KilledBetween(run, s, f, id), r.jobs[id].state, r.jobs[id].output)
  {
    AtNext(run, f);
    AtNext(run, c);
    AtWorkUntil(run, s, f, id);
    ConcludedStays(run, c, f, id);
    assert JobAgrees(Before(run, f), id);
  }

  /** Once the summary is taken, it is what is announced, if anything. */
  ghost predicate SpeaksOf(r: Registry, id: Id, summary: JobSummary) {
    && id in r.threads && (r.threads[id] == Notifying(Some(summary)) || r.threads[id].Gone?)
    && forall i :: 0 <= i < |r.fired| && r.fired[i].id == id ==> r.fired[i] == summary
  }

  lemma SpeaksStep(r: Registry, a: Action, id: Id, summary: JobSummary)
    requires Consistent(r) && SpeaksOf(r, id, summary)
    ensures SpeaksOf(Step(r, a), id, summary)
  {
    assert JobAgrees(r, id);
    if a.Notify? {
      assert JobAgrees(r, a.id);
    }
  }

  lemma {:induction false} SpeaksUntil(run: seq<Action>, f: nat, k: nat, id: Id, summary: JobSummary)
    requires f < k <= |run| && SpeaksOf(Before(run, f + 1), id, summary)
    ensures SpeaksOf(Before(run, k), id, summary)
    decreases k
  {
    if k > f + 1 {
      SpeaksUntil(run, f, k - 1, id, summary);
      AtNext(run, k - 1);
      SpeaksStep(Before(run, k - 1), run[k - 1], id, summary);
    }
  }

  /**
   In every run, a job that is still remembered when its thread records the result is from then on reported as killed
   exactly if a kill came between its start and that moment, else completed if its task returned and failed if it
   raised; with the output of its task, or the message as its error text; and the announcement says the same.
   */
  lemma JobEndsAsItsTaskDid(run: seq<Action>, id: Id, s: nat, f: nat) returns (c: nat)
    requires StartsAt(run, s, id) && FinishesAt(run, f, id) && !ForgottenBetween(run, s, f, id)
    ensures s < c < f && ConcludesAt(run, c, id)
    ensures var status := StatusOf(Before(run, f + 1), id);
            && status.Ok? && EndsLike(run[c].outcome, KilledBetween(run, s, f, id), status.value.state,
                                      Before(run, f + 1).jobs[id].output)
            && status.value.id == id && status.value.label_ == run[s].label_ && status.value.started_ms == run[s].now
            && status.value.exit_code == Before(run, f + 1).jobs[id].output.exit_code
            && forall i :: 0 <= i < |After(EMPTY, run).fired| && After(EMPTY, run).fired[i].id == id ==>
                 After(EMPTY, run).fired[i] == status.value
  {
    StartBeforeFinish(run, id, s, f);
    c := FinishNeedsConclude(run, s, f, id);
    RememberedAtFinish(run, id, s, f);
    FinishReports(run, id, s, c, f);
    var r := Before(run, f + 1);
    AtNext(run, f);
    NothingSaidYet(Before(run, f), id);
    SpeaksUntil(run, f, |run|, id, SummaryOf(id, r.jobs[id]));
    assert run[..|run|] == run;
  }

  lemma StartBeforeFinish(run: seq<Action>, id: Id, s: nat, f: nat)
    requires StartsAt(run, s, id) && FinishesAt(run, f, id)
    ensures s < f
  {
    AtNext(run, s);
    StepProgress(Before(run, s), run[s], id);
    if f < s {
      ProgressGrows(run, f, s, id);
    }
  }

  lemma NothingSaidYet(r: Registry, id: Id)
    requires Consistent(r) && id in r.threads && r.threads[id].Concluded?
    ensures forall i :: 0 <= i < |Step(r, Finish(id)).fired| ==> Step(r, Finish(id)).fired[i].id != id
  {
  }

  lemma RememberedAtFinish(run: seq<Action>, id: Id, s: nat, f: nat)
    requires StartsAt(run, s, id) && FinishesAt(run, f, id) && s < f && !ForgottenBetween(run, s, f, id)
    ensures id in Before(run, f).jobs
  {
    var front := run[..f];
    var s', f', n' := HasBiography(front, id);
    MomentsInFront(run, f, s, id);
    SameMoment(front, id, s, s');
    forall k | 0 <= k < f ensures ForgetsAt(front, k, id) == ForgetsAt(run, k, id) {
      assert front[..k] == run[..k];
    }
  }

  lemma MomentsInFront(run: seq<Action>, f: nat, s: nat, id: Id)
    requires s < f <= |run| && StartsAt(run, s, id)
    ensures StartsAt(run[..f], s, id)
  {
    assert run[..f][..s] == run[..s];
  }

  ghost predicate Silent(r: Registry, id: Id) {
    && id in r.threads && id <= r.seq_ && id !in r.jobs
    && (r.threads[id].Notifying? ==> r.threads[id].summary == None)
    && forall i :: 0 <= i < |r.fired| ==> r.fired[i].id != id
  }

  lemma StepStaysSilent(r: Registry, a: Action, id: Id)
    requires Silent(r, id) && Consistent(r)
    ensures Silent(Step(r, a), id)
  {
    if a.Notify? && a.id != id {
      assert JobAgrees(r, a.id);
    }
  }

  lemma {:induction false} StaysSilent(r: Registry, id: Id, run: seq<Action>)
    requires Silent(r, id) && Consistent(r)
    ensures Silent(After(r, run), id)
  {
    if run != [] {
      var front := run[..|run| - 1];
      StaysSilent(r, id, front);
      RunEvolves(r, front, id);
      StepStaysSilent(After(r, front), run[|run| - 1], id);
    }
  }

  /**
   A case in which the hook stays silent: a running job that is killed and removed before its thread has finished is
   never announced, whatever comes later.
   */
  lemma KilledAndRemovedIsSilent(before: seq<Action>, id: Id, later: seq<Action>)
    requires id in After(EMPTY, before).jobs && After(EMPTY, before).jobs[id].state == Running
    ensures var r := Step(After(EMPTY, before), Kill(id));
            id in r.jobs && r.jobs[id].state == Killed &&
            var end := After(Step(r, Remove(id)), later);
            forall i :: 0 <= i < |end.fired| ==> end.fired[i].id != id
  {
    EmptyConsistent();
    RunEvolves(EMPTY, before, id);
    var r := After(EMPTY, before);
    assert JobAgrees(r, id);
    var killed := Step(r, Kill(id));
    StepConsistent(r, Kill(id));
    StepConsistent(killed, Remove(id));
    StaysSilent(Step(killed, Remove(id)), id, later);
  }

  lemma RunningAfterStep(r: Registry, a: Action, ceiling: nat)
    requires Consistent(r) && |RunningIds(r.jobs)| <= ceiling && (a.Start? ==> a.ceiling <= ceiling)
    ensures |RunningIds(Step(r, a).jobs)| <= ceiling
  {
    var before, now := RunningIds(r.jobs), RunningIds(Step(r, a).jobs);
    if a.Start? && CanStart(r, a.ceiling) {
      assert JobAgrees(r, r.seq_ + 1);
      assert now == before + {r.seq_ + 1};
    } else {
      forall id | id in now ensures id in before {
        assert JobAgrees(r, id);
      }
      Fewer(now, before);
    }
  }

  lemma {:induction false} Fewer(a: set<Id>, b: set<Id>)
    requires a <= b
    ensures |a| <= |b|
  {
    if a != {} {
      var x :| x in a;
      Fewer(a - {x}, b - {x});
    }
  }

  /** The number of running jobs never exceeds the ceiling. */
  lemma {:induction false} CeilingHolds(run: seq<Action>, ceiling: nat)
    requires forall a :: a in run && a.Start? ==> a.ceiling <= ceiling
    ensures |RunningIds(After(EMPTY, run).jobs)| <= ceiling
  {
    EmptyConsistent();
    if run == [] {
      assert RunningIds(EMPTY.jobs) == {};
    } else {
      var front := run[..|run| - 1];
      CeilingHolds(front, ceiling);
      RunEvolves(EMPTY, front, 0);
      RunningAfterStep(After(EMPTY, front), run[|run| - 1], ceiling);
    }
  }

  /** The ids handed out by the successful starts of a run. */
  function Minted(r: Registry, run: seq<Action>): seq<Id> {
    if run == [] then []
    else
      var front, last := run[..|run| - 1], run[|run| - 1];
      var here := After(r, front);
      Minted(r, front) + (if last.Start? && CanStart(here, last.ceiling) then [Step(here, last).seq_] else [])
  }

  /** No id is handed out twice. */
  lemma {:induction false} IdsAreFresh(r: Registry, run: seq<Action>)
    ensures r.seq_ <= After(r, run).seq_
    ensures forall i :: 0 <= i < |Minted(r, run)| ==> r.seq_ < Minted(r, run)[i] <= After(r, run).seq_
    ensures forall i, j :: 0 <= i < j < |Minted(r, run)| ==> Minted(r, run)[i] < Minted(r, run)[j]
  {
    if run != [] {
      IdsAreFresh(r, run[..|run| - 1]);
    }
  }

  /** After a shutdown there is no job and there never will be, and every job that was running has been cancelled. */
  lemma {:induction false} ShutdownIsFinal(r: Registry, run: seq<Action>)
    ensures var end := After(ShutDown(r), run);
            end.shut_down && end.jobs == map[] && RunningIds(r.jobs) <= end.cancelled
  {
    if run != [] {
      ShutdownIsFinal(r, run[..|run| - 1]);
    }
  }

  // ----- The registry object.

  class LocalJobRegistry {
    var jobs: map<Id, JobRecord>
    var seq_: nat
    var shut_down: bool
    var max_running: nat
    var hooked: bool
    /** The cancel flags that are set; each is shared with the job's thread. */
    var cancelled: set<Id>
    var threads: map<Id, Phase>
    var fired: seq<JobSummary>

    ghost function View(): Registry
      reads this
    {
      Registry(jobs, seq_, shut_down, hooked, cancelled, threads, fired)
    }

    constructor ()
      ensures jobs == map[] && seq_ == 0 && !shut_down && !hooked && cancelled == {} && threads == map[] && fired == []
      ensures max_running == 64
    {
      jobs, seq_, shut_down, hooked, max_running := map[], 0, false, false, 64;
      cancelled, threads, fired := {}, map[], [];
    }

    method SetMaxRunning(max: nat)
      modifies this`max_running
      ensures max_running == max
    {
      max_running := max;
    }

    /** `running_count`. */
    method RunningCount() returns (n: nat)
      ensures n == |RunningIds(jobs)|
    {
      n := 0;
      var todo := jobs.Keys;
      ghost var counted: set<Id> := {};
      while todo != {}
        invariant todo <= jobs.Keys && counted == RunningIds(jobs) - todo && n == |counted|
        decreases todo
      {
        var id :| id in todo;
        todo := todo - {id};
        if jobs[id].state == Running {
          n := n + 1;
          counted := counted + {id};
        }
      }
      assert counted == RunningIds(jobs);
    }

    method StartJob(label_: string, now: int) returns (r: Result<Id, JobError>)
      modifies this`jobs, this`seq_, this`threads
      ensures View() == Step(old(View()), Start(label_, max_running, now))
      ensures r == (if !old(shut_down) && |set x | x in old(jobs) && old(jobs)[x].state == Running| < max_running
                    then Ok(seq_) else Err(Refused))
      ensures r.Ok? ==> r.value in jobs && jobs[r.value].state == Running
    {
      if shut_down {
        return Err(Refused);
      }
      var running := RunningCount();
      assert RunningIds(jobs) == set x | x in jobs && jobs[x].state == Running;
      if running >= max_running {
        return Err(Refused);
      }
      seq_ := seq_ + 1;
      jobs := jobs[seq_ := JobRecord(label_, Running, now, NO_OUTPUT)];
      threads := threads[seq_ := Working];
      return Ok(seq_);
    }

    method Status(id: Id) returns (r: Result<JobSummary, JobError>)
      ensures r == StatusOf(View(), id) && (r == Err(Unknown) <==> id !in jobs)
      ensures r.Ok? ==>
                && (r.value.id, r.value.label_, r.value.state) == (id, jobs[id].label_, jobs[id].state)
                && (r.value.started_ms, r.value.exit_code) == (jobs[id].started_ms, jobs[id].output.exit_code)
    {
      if id !in jobs {
        return Err(Unknown);
      }
      return Ok(SummaryOf(id, jobs[id]));
    }

    method KillJob(id: Id) returns (r: Result<JobState, JobError>)
      modifies this`jobs, this`cancelled
      ensures View() == Step(old(View()), Kill(id))
      ensures r == if id in old(jobs) then Ok(old(jobs)[id].state) else Err(Unknown)
    {
      if id !in jobs {
        return Err(Unknown);
      }
      var previous := jobs[id].state;
      if previous.Terminal() {
        return Ok(previous);
      }
      cancelled := cancelled + {id};
      jobs := jobs[id := jobs[id].(state := Killed)];
      return Ok(previous);
    }

    method RemoveJob(id: Id) returns (removed: bool)
      modifies this`jobs
      ensures View() == Step(old(View()), Remove(id))
      ensures removed <==> id in old(jobs) && !old(jobs)[id].state.Running?
      ensures jobs == if removed then old(jobs) - {id} else old(jobs)
    {
      if id in jobs {
        if jobs[id].state.Terminal() {
          jobs := jobs - {id};
          return true;
        }
      }
      return false;
    }

    /** Cancels every running job, then forgets them all. */
    method ShutDownAll()
      modifies this`jobs, this`cancelled, this`shut_down
      ensures View() == Step(old(View()), Shutdown)
    {
      shut_down := true;
      var todo := jobs.Keys;
      while todo != {}
        invariant shut_down && jobs.Keys == old(jobs.Keys) && todo <= jobs.Keys
        invariant forall id :: id in todo ==> jobs[id] == old(jobs)[id]
        invariant cancelled == old(cancelled) + (RunningIds(old(jobs)) - todo)
        decreases todo
      {
        var id :| id in todo;
        todo := todo - {id};
        if jobs[id].state == Running {
          cancelled := cancelled + {id};
          jobs := jobs[id := jobs[id].(state := Killed)];
        }
      }
      assert cancelled == old(cancelled) + RunningIds(old(jobs));
      jobs := map[];
    }

    /** The thread looks at its cancel flag. */
    method ConcludeTask(id: Id, outcome: Outcome)
      requires id in threads && threads[id].Working?
      modifies this`threads
      ensures View() == Step(old(View()), Conclude(id, outcome))
    {
      match outcome {
        case Returned(output) =>
          var state := if id in cancelled then Killed else Completed;
          threads := threads[id := Concluded(state, output)];
        case Raised(message) =>
          threads := threads[id := Concluded(Failed, NO_OUTPUT.(stderr := message))];
      }
    }

    /** `finish_locked` and the summary read under the same lock. */
    method FinishTask(id: Id)
      requires id in threads && threads[id].Concluded?
      modifies this`jobs, this`threads
      ensures View() == Step(old(View()), Finish(id))
    {
      if id !in jobs {
        threads := threads[id := Notifying(None)];
        return;
      }
      var rec := jobs[id];
      if rec.state != Killed {
        rec := rec.(state := threads[id].state);
      }
      rec := rec.(output := threads[id].output);
      jobs := jobs[id := rec];
      threads := threads[id := Notifying(Some(SummaryOf(id, rec)))];
    }

    /** The hook runs outside the lock. */
    method NotifyDone(id: Id)
      requires id in threads && threads[id].Notifying?
      modifies this`threads, this`fired
      ensures View() == Step(old(View()), Notify(id))
    {
      var summary := threads[id].summary;
      threads := threads[id := Gone];
      if hooked {
        if summary.Some? {
          fired := fired + [summary.value];
        }
      }
    }
  }
}
