/** Small worked examples of the pipeline on concrete pools and tasks. */
module Scenarios {
  import opened Wrappers
  import opened Ascii
  import opened Lists
  import opened Config
  import opened Validation
  import opened Scheduling
  import opened Runner
  import opened Pipeline

  function Rule(fields: seq<string>, modes: seq<string>, priority: int, file: string, className: string): Descriptor {
    Descriptor(fields, modes, priority, "table", file, className)
  }

  function Settings(mode: string, fields: map<string, string>): TaskValue {
    Block(Invocation(mode, "2024-01-01", "2024-01-31", fields))
  }

  /** A task holding `name`, `report` and the given rule entries. */
  function TaskOf(rules: seq<Entry>): seq<Entry> {
    [("name", Text("nightly")), ("report", Flag(true))] + rules
  }

  /** A task with a single rule entry validates as that entry does. */
  lemma ValidateOneRule(pool: Pool, e: Entry)
    requires !IsReserved(e.0)
    ensures Validate(pool, TaskOf([e])) == CheckEntry(pool, e)
  {
    var t := TaskOf([e]);
    assert IsReserved(t[0].0) && IsReserved(t[1].0);
    assert t[1..][1..] == [e] && [e][1..] == [];
    calc {
      Validate(pool, t);
      Validate(pool, t[1..]);
      Validate(pool, [e]);
    }
  }

  /** The lower-cased forms of the modes used below. */
  lemma ModeSpellings()
    ensures Lower("Strict") == "strict" && Lower("strict") == "strict" && Lower("LOOSE") == "loose"
  {
    assert Lower("Strict") == "strict";
    LowerOfLowercase("strict");
    assert Lower("LOOSE") == "loose";
  }

  /** The task's mode is matched case-insensitively: "Strict" is accepted by a
      rule supporting "strict". */
  lemma MixedCaseModeAccepted()
    ensures var pool := map["R1" := Rule(["a"], ["strict"], 1, "r1.py", "R1Check")];
            Validate(pool, TaskOf([("R1", Settings("Strict", map["a" := "5"]))])) == Pass
  {
    var pool := map["R1" := Rule(["a"], ["strict"], 1, "r1.py", "R1Check")];
    var e := ("R1", Settings("Strict", map["a" := "5"]));
    ValidateOneRule(pool, e);
    ModeSpellings();
    assert EntryOk(pool, e);
  }

  /** The entry check on a rule given none of its two required fields. */
  lemma NoFieldsEntry()
    ensures CheckEntry(map["R1" := Rule(["a", "b"], ["strict"], 1, "r1.py", "R1Check")], ("R1", Settings("strict", map[])))
         == Fail(MissingField("a", "R1"))
  {
    ModeSpellings();
    assert FirstMissingIndex(["a", "b"], {}) == 0;
  }

  /** A rule given none of its required fields is rejected naming the rule and
      the first missing field. */
  lemma MissingFieldNamed()
    ensures var pool := map["R1" := Rule(["a", "b"], ["strict"], 1, "r1.py", "R1Check")];
            Validate(pool, TaskOf([("R1", Settings("strict", map[]))])) == Fail(MissingField("a", "R1"))
  {
    NoFieldsEntry();
    ValidateOneRule(map["R1" := Rule(["a", "b"], ["strict"], 1, "r1.py", "R1Check")], ("R1", Settings("strict", map[])));
  }

  /** A mode the rule does not list is rejected with the lower-cased mode. */
  lemma UnsupportedModeNamed()
    ensures var pool := map["R1" := Rule(["a"], ["strict"], 1, "r1.py", "R1Check")];
            Validate(pool, TaskOf([("R1", Settings("LOOSE", map["a" := "5"]))])) == Fail(UnsupportedMode("loose", "R1"))
  {
    var pool := map["R1" := Rule(["a"], ["strict"], 1, "r1.py", "R1Check")];
    var e := ("R1", Settings("LOOSE", map["a" := "5"]));
    ValidateOneRule(pool, e);
    ModeSpellings();
  }

  /** A rule absent from the pool is rejected by name, and nothing runs. */
  lemma UnknownRuleRunsNothing(reg: Registry, oracle: Oracle)
    ensures var pool := map["R1" := Rule(["a"], ["strict"], 1, "r1.py", "R1Check")];
            var task := TaskOf([("R3", Settings("strict", map["a" := "5"]))]);
            && Validate(pool, task) == Fail(UnknownRule("R3"))
            && ValidateThenRun(pool, reg, oracle, task).trace == []
  {
    var pool := map["R1" := Rule(["a"], ["strict"], 1, "r1.py", "R1Check")];
    ValidateOneRule(pool, ("R3", Settings("strict", map["a" := "5"])));
  }

  /** Two rules whose implementations live in modules "r1" and "r2". */
  function TwoRules(p1: int, p2: int): Pool {
    map["R1" := Rule(["a"], ["strict"], p1, "r1.py", "R1Check"),
        "R2" := Rule(["a"], ["strict"], p2, "r2.py", "R2Check")]
  }

  function R1Entry(): Entry { ("R1", Settings("strict", map["a" := "5"])) }
  function R2Entry(): Entry { ("R2", Settings("strict", map["a" := "6"])) }

  /** The `name` and `report` entries are dropped from a task. */
  lemma TaskOfRuleEntries(rules: seq<Entry>)
    requires forall i :: 0 <= i < |rules| ==> !IsReserved(rules[i].0)
    ensures RuleEntries(TaskOf(rules)) == rules
  {
    var task := TaskOf(rules);
    assert task[1..][1..] == rules;
    assert RuleEntries(rules) == rules by {
      assert forall e :: e in rules ==> !IsReserved(e.0);
      NoReservedKept(rules);
    }
  }

  lemma {:induction false} NoReservedKept(rules: seq<Entry>)
    requires forall e :: e in rules ==> !IsReserved(e.0)
    ensures RuleEntries(rules) == rules
  {
    if rules != [] {
      NoReservedKept(rules[1..]);
      assert rules == [rules[0]] + rules[1..];
    }
  }

  /** Sorting two entries: the lower priority goes first, and a tie keeps their order. */
  lemma SortTwo(pool: Pool, first: Entry, second: Entry)
    requires first.0 in pool && second.0 in pool
    ensures SortByPriority(pool, [first, second])
         == if Priority(pool, first) <= Priority(pool, second) then [first, second] else [second, first]
  {
    assert [first, second][1..] == [second];
    assert [second][1..] == [];
    assert SortByPriority(pool, [second]) == [second];
    assert Insert(pool, first, []) == [first];
  }

  /** The schedule of a two-rule task. */
  lemma TwoRuleSchedule(p1: int, p2: int, first: Entry, second: Entry)
    requires first.0 in {"R1", "R2"} && second.0 in {"R1", "R2"} && first.0 != second.0
    ensures var pool := TwoRules(p1, p2);
            GetSortedRules(pool, TaskOf([first, second]))
              == Success(if Priority(pool, first) <= Priority(pool, second) then [first, second] else [second, first])
  {
    var pool := TwoRules(p1, p2);
    TaskOfRuleEntries([first, second]);
    assert FirstMissingIndex(Keys([first, second]), pool.Keys) == 2;
    SortTwo(pool, first, second);
  }

  /** The task naming `first` and then `second` of the two-rule pool. */
  function TwoRuleTask(first: Entry, second: Entry): TaskInfo
    requires first.0 in {"R1", "R2"} && second.0 in {"R1", "R2"} && first.0 != second.0
  {
    TaskOfTwoDistinct(first, second);
    TaskOf([first, second])
  }

  /** Lower priority runs first: R2 (priority 1) before R1 (priority 5),
      whichever of the two the task lists first. */
  lemma LowerPriorityScheduledFirst()
    ensures GetSortedRules(TwoRules(5, 1), TwoRuleTask(R1Entry(), R2Entry())) == Success([R2Entry(), R1Entry()])
    ensures GetSortedRules(TwoRules(5, 1), TwoRuleTask(R2Entry(), R1Entry())) == Success([R2Entry(), R1Entry()])
  {
    TwoRuleSchedule(5, 1, R1Entry(), R2Entry());
    TwoRuleSchedule(5, 1, R2Entry(), R1Entry());
  }

  /** Equal priorities keep the task order. */
  lemma TiesKeepTaskOrder()
    ensures GetSortedRules(TwoRules(2, 2), TaskOf([R2Entry(), R1Entry()])) == Success([R2Entry(), R1Entry()])
  {
    TwoRuleSchedule(2, 2, R2Entry(), R1Entry());
  }

  /** The header entries of `TaskOf` are found by `run_task`. */
  lemma TaskOfHeader(rules: seq<Entry>)
    ensures Lookup(TaskOf(rules), NameKey) == Some(Text("nightly"))
    ensures Lookup(TaskOf(rules), ReportKey) == Some(Flag(true))
  {
    assert TaskOf(rules)[1..][0] == ("report", Flag(true));
  }

  /** A task of two distinct rules in the two-rule pool, run with reporting on. */
  lemma RunTwoRuleTask(p1: int, p2: int, reg: Registry, oracle: Oracle, first: Entry, second: Entry)
    requires first.0 in {"R1", "R2"} && second.0 in {"R1", "R2"} && first.0 != second.0
    requires DistinctKeys(TaskOf([first, second]))
    ensures var pool := TwoRules(p1, p2);
            var rules := if Priority(pool, first) <= Priority(pool, second) then [first, second] else [second, first];
            RunTask(pool, reg, oracle, TaskOf([first, second])) == RunRules(pool, reg, oracle, true, rules)
  {
    var task: TaskInfo := TaskOf([first, second]);
    TwoRuleSchedule(p1, p2, first, second);
    TaskOfHeader([first, second]);
    RunTaskRunsSchedule(TwoRules(p1, p2), reg, oracle, task);
  }

  lemma TaskOfTwoDistinct(first: Entry, second: Entry)
    requires first.0 in {"R1", "R2"} && second.0 in {"R1", "R2"} && first.0 != second.0
    ensures DistinctKeys(TaskOf([first, second]))
  {
    var t := TaskOf([first, second]);
    assert |t| == 4 && t[0].0 == "name" && t[1].0 == "report" && t[2] == first && t[3] == second;
    assert |first.0| == 2 && |second.0| == 2;
    assert "name" != "report";
  }

  /** The implementation modules of the two-rule pool. */
  lemma TwoRuleModules()
    ensures ModuleName("r1.py") == "r1" && ModuleName("r2.py") == "r2"
  {
    assert "r1" + ".py" == "r1.py" && "r2" + ".py" == "r2.py";
    ModuleNameOfPyFile("r1");
    ModuleNameOfPyFile("r2");
  }

  const FailR1: Oracle := (c: Checker, v: TaskValue) => c.moduleName != "r1"
  const PassAll: Oracle := (c: Checker, v: TaskValue) => true

  /** `R1` resolves to `r1.R1Check`, whose checker the oracle fails. */
  lemma FailR1Step()
    ensures StepOf(TwoRules(1, 2), map["r1" := {"R1Check"}, "r2" := {"R2Check"}], FailR1, R1Entry())
         == Fails(Checker("r1", "R1Check"))
  {
    TwoRuleModules();
  }

  /** `R1` resolves and passes; `R2` names a class its module lacks. */
  lemma MissingR2ClassSteps()
    ensures StepOf(TwoRules(1, 2), map["r1" := {"R1Check"}, "r2" := {}], PassAll, R1Entry())
         == Passes(Checker("r1", "R1Check"))
    ensures StepOf(TwoRules(1, 2), map["r1" := {"R1Check"}, "r2" := {}], PassAll, R2Entry())
         == Unresolved(ClassNotFound("R2Check", "r2"))
  {
    TwoRuleModules();
  }

  /** With `r1`'s checker failing, the loop over the schedule `[R1, R2]` stops at `R1`. */
  lemma FailingFirstStepStopsLoop()
    ensures var run := RunRules(TwoRules(1, 2), map["r1" := {"R1Check"}, "r2" := {"R2Check"}], FailR1, true, [R1Entry(), R2Entry()]);
            && run.outcome == Aborted(CheckFailed("R1"))
            && Checks(run.trace) == [R1Entry()]
            && Reports(run.trace) == []
  {
    var pool := TwoRules(1, 2);
    var reg: Registry := map["r1" := {"R1Check"}, "r2" := {"R2Check"}];
    var rules := [R1Entry(), R2Entry()];
    FailR1Step();
    LoopStopsAtFirstFailure(pool, reg, FailR1, true, rules, 0);
  }

  /** When the first scheduled checker fails, the second is never invoked and
      no report is emitted. */
  lemma FailingCheckStopsRun()
    ensures var run := RunTask(TwoRules(1, 2), map["r1" := {"R1Check"}, "r2" := {"R2Check"}], FailR1, TaskOf([R2Entry(), R1Entry()]));
            && run.outcome == Aborted(CheckFailed("R1"))
            && Checks(run.trace) == [R1Entry()]
            && Reports(run.trace) == []
  {
    TaskOfTwoDistinct(R2Entry(), R1Entry());
    RunTwoRuleTask(1, 2, map["r1" := {"R1Check"}, "r2" := {"R2Check"}], FailR1, R2Entry(), R1Entry());
    FailingFirstStepStopsLoop();
  }

  /** A two-rule loop whose first rule succeeds and whose second does not. */
  lemma SecondOfTwoStops(pool: Pool, reg: Registry, oracle: Oracle, report: bool, a: Entry, b: Entry)
    requires a.0 in pool && b.0 in pool
    requires StepOf(pool, reg, oracle, a).Passes? && !StepOf(pool, reg, oracle, b).Passes?
    ensures RunRules(pool, reg, oracle, report, [a, b]).outcome == Aborted(StepError(b.0, StepOf(pool, reg, oracle, b)))
    ensures Checks(RunRules(pool, reg, oracle, report, [a, b]).trace)
         == [a] + (if StepOf(pool, reg, oracle, b).Fails? then [b] else [])
    ensures Reports(RunRules(pool, reg, oracle, report, [a, b]).trace) == (if report then [a.0] else [])
  {
    assert [a, b][..1] == [a] && Keys([a]) == [a.0];
    LoopStopsAtFirstFailure(pool, reg, oracle, report, [a, b], 1);
  }

  /** With `r2`'s class missing, the loop over `[R1, R2]` checks and reports
      `R1`, then stops on the load error. */
  lemma MissingSecondClassStopsLoop()
    ensures var run := RunRules(TwoRules(1, 2), map["r1" := {"R1Check"}, "r2" := {}], PassAll, true, [R1Entry(), R2Entry()]);
            && run.outcome == Aborted(LoadFailed(ClassNotFound("R2Check", "r2")))
            && Checks(run.trace) == [R1Entry()]
            && Reports(run.trace) == ["R1"]
  {
    var pool := TwoRules(1, 2);
    var reg: Registry := map["r1" := {"R1Check"}, "r2" := {}];
    var rules := [R1Entry(), R2Entry()];
    MissingR2ClassSteps();
    SecondOfTwoStops(pool, reg, PassAll, true, R1Entry(), R2Entry());
  }

  /** A missing class stops the run after the earlier rules were checked and reported. */
  lemma MissingClassStopsLater()
    ensures var run := RunTask(TwoRules(1, 2), map["r1" := {"R1Check"}, "r2" := {}], PassAll, TaskOf([R2Entry(), R1Entry()]));
            && run.outcome == Aborted(LoadFailed(ClassNotFound("R2Check", "r2")))
            && Checks(run.trace) == [R1Entry()]
            && Reports(run.trace) == ["R1"]
  {
    TaskOfTwoDistinct(R2Entry(), R1Entry());
    RunTwoRuleTask(1, 2, map["r1" := {"R1Check"}, "r2" := {}], PassAll, R2Entry(), R1Entry());
    MissingSecondClassStopsLoop();
  }

  /** Every ".py" in a file name is removed, not only the extension. */
  lemma InnerPyRemoved()
    ensures ModuleName("x.pyc.py") == "xc"
  {
  }
}
