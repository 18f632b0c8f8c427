/** The entry script: validate the task, and run it only if it is valid. */
module Pipeline {
  import opened Config
  import opened Validation
  import opened Scheduling
  import opened Runner

  datatype PipelineOutcome = Rejected(error: ValidationError) | Ran(outcome: RunOutcome)

  datatype PipelineResult = PipelineResult(trace: seq<Event>, outcome: PipelineOutcome)

  /** A valid task names only pool rules, each configured by a mapping. */
  lemma ValidRuleEntriesAreScheduledBlocks(pool: Pool, task: seq<Entry>)
    requires Validate(pool, task).Pass?
    ensures InPool(pool, RuleEntries(task))
    ensures forall e :: e in RuleEntries(task) ==> e.0 in pool && e.1.Block?
  {
    forall e | e in RuleEntries(task)
      ensures e.0 in pool && e.1.Block?
    {
      var j :| 0 <= j < |task| && task[j] == e;
      assert EntryOk(pool, task[j]);
    }
  }

  /** A valid task can always be scheduled, and its run never stops on a
      missing priority or a configuration that is not a mapping: the only
      errors left are a missing `name`/`report`, a missing implementation and
      a failing checker. */
  lemma ValidTaskRunsCleanly(pool: Pool, reg: Registry, oracle: Oracle, task: TaskInfo)
    requires Validate(pool, task).Pass?
    ensures GetSortedRules(pool, task).Success?
    ensures var run := RunTask(pool, reg, oracle, task);
            run.outcome.Aborted? ==> !run.outcome.error.ScheduleFailed? && !run.outcome.error.ConfigNotMapping?
  {
    ValidRuleEntriesAreScheduledBlocks(pool, task);
    if Lookup(task, NameKey).Some? && Lookup(task, ReportKey).Some? {
      var rules := GetSortedRules(pool, task).value;
      forall i | 0 <= i < |rules|
        ensures rules[i].1.Block?
      {
        assert rules[i] in multiset(RuleEntries(task));
      }
      RunTaskRunsSchedule(pool, reg, oracle, task);
      BlockConfigsAbortOnlyOnLoadOrCheck(pool, reg, oracle, Truthy(Lookup(task, ReportKey).value), rules);
    }
  }

  /** `run.py`: validate, then run. */
  function ValidateThenRun(pool: Pool, reg: Registry, oracle: Oracle, task: TaskInfo): (r: PipelineResult)
    ensures r.outcome.Rejected? <==> Validate(pool, task).Fail?
    ensures r.outcome.Rejected? ==> r.outcome.error == Validate(pool, task).error && r.trace == []
    ensures r.outcome.Ran? ==>
              r.outcome.outcome.Aborted? ==>
                !r.outcome.outcome.error.ScheduleFailed? && !r.outcome.outcome.error.ConfigNotMapping?
    ensures Validate(pool, task).Pass? ==>
              r.trace == RunTask(pool, reg, oracle, task).trace
              && r.outcome == Ran(RunTask(pool, reg, oracle, task).outcome)
  {
    match Validate(pool, task)
    case Fail(err) => PipelineResult([], Rejected(err))
    case Pass =>
      ValidTaskRunsCleanly(pool, reg, oracle, task);
      var run := RunTask(pool, reg, oracle, task);
      PipelineResult(run.trace, Ran(run.outcome))
  }

  /** The whole pipeline completes exactly when the task is valid, carries
      `name` and `report`, and every scheduled rule resolves and passes its
      check; it then checks every rule entry of the task, in schedule order. */
  lemma PipelineCompletes(pool: Pool, reg: Registry, oracle: Oracle, task: TaskInfo)
    ensures var r := ValidateThenRun(pool, reg, oracle, task);
            r.outcome == Ran(Completed) <==>
              && Validate(pool, task).Pass?
              && Lookup(task, NameKey).Some?
              && Lookup(task, ReportKey).Some?
              && GetSortedRules(pool, task).Success?
              && AllSucceed(pool, reg, oracle, GetSortedRules(pool, task).value)
    ensures var r := ValidateThenRun(pool, reg, oracle, task);
            r.outcome == Ran(Completed) ==> multiset(Checks(r.trace)) == multiset(RuleEntries(task))
  {
    if Validate(pool, task).Pass? {
      RunTaskCompletes(pool, reg, oracle, task);
      if RunTask(pool, reg, oracle, task).outcome.Completed? {
        CompletedRunCoversSchedule(pool, reg, oracle, task);
      }
    }
  }

  /** A task that fails validation never invokes a checker or emits a report. */
  lemma RejectedTaskRunsNothing(pool: Pool, reg: Registry, oracle: Oracle, task: TaskInfo)
    requires Validate(pool, task).Fail?
    ensures Checks(ValidateThenRun(pool, reg, oracle, task).trace) == []
    ensures Reports(ValidateThenRun(pool, reg, oracle, task).trace) == []
  {
  }
}
