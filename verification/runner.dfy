/** `TaskRunner`: resolves each scheduled rule's implementation, invokes its
    checker, and optionally emits a report event, aborting on the first error. */
module Runner {
  import opened Wrappers
  import opened Config
  import opened Lists
  import opened Scheduling

  /** The rule implementations that can be imported: module name (under the
      `rules` package) to the class names it exports. */
  type Registry = map<string, set<string>>

  /** A checker instance: a class instantiated with no arguments, so it is
      identified by its module and class. */
  datatype Checker = Checker(moduleName: string, className: string)

  /** Whether a checker's `check` returns normally on a configuration; the
      checkers themselves are outside the model. */
  type Oracle = (Checker, TaskValue) -> bool

  datatype LoadError =
    | ModuleNotFound(moduleName: string)
    | ClassNotFound(className: string, moduleName: string)

  /** Why a run stopped early. */
  datatype RunError =
    | MissingTaskKey(key: string)
    | ScheduleFailed(schedule: ScheduleError)
    | LoadFailed(load: LoadError)
    | ConfigNotMapping(rule: string)
    | CheckFailed(rule: string)

  datatype RunOutcome = Completed | Aborted(error: RunError)

  /** What the run did, in order: each checker invocation and each report. */
  datatype Event =
    | Checked(rule: string, checker: Checker, config: TaskValue)
    | Reported(rule: string)

  datatype Run = Run(trace: seq<Event>, outcome: RunOutcome)

  /** Whether `s[i..i + 3]` is ".py". */
  predicate PyAt(s: string, i: nat) {
    i + 3 <= |s| && s[i] == '.' && s[i + 1] == 'p' && s[i + 2] == 'y'
  }

  predicate ContainsPy(s: string) {
    exists i: nat | i < |s| :: PyAt(s, i)
  }

  /** `file.replace(".py", "")`: every non-overlapping occurrence of ".py",
      found left to right, is deleted. */
  function ModuleName(file: string): (r: string)
    ensures !ContainsPy(file) ==> r == file
  {
    if PyAt(file, 0) then ModuleName(file[3..])
    else if file == [] then []
    else
      assert !ContainsPy(file) ==> !ContainsPy(file[1..]) by {
        forall i: nat | PyAt(file[1..], i) ensures PyAt(file, i + 1) { }
      }
      [file[0]] + ModuleName(file[1..])
  }

  /** A file name `m + ".py"` maps back to the module `m`, provided `m` itself
      holds no ".py". */
  lemma {:induction false} ModuleNameOfPyFile(m: string)
    requires !ContainsPy(m)
    ensures ModuleName(m + ".py") == m
  {
    var f := m + ".py";
    if m == [] {
      assert f == ".py" && f[3..] == [];
    } else {
      assert !PyAt(m, 0);
      assert !PyAt(f, 0);
      assert f[1..] == m[1..] + ".py";
      assert !ContainsPy(m[1..]) by {
        forall i: nat | PyAt(m[1..], i) ensures PyAt(m, i + 1) { }
      }
      ModuleNameOfPyFile(m[1..]);
      assert m == [m[0]] + m[1..];
    }
  }

  /** Scanning left to right, the first ".py" is deleted and the scan resumes
      after it; together with `ModuleName`'s own contract this fixes every
      occurrence being removed, not only a trailing one. */
  lemma {:induction false} ModuleNameRemovesLeftmost(a: string, b: string)
    requires !ContainsPy(a)
    ensures ModuleName(a + ".py" + b) == a + ModuleName(b)
  {
    var s := a + ".py" + b;
    if a == [] {
      assert PyAt(s, 0) && s[3..] == b;
    } else {
      NoPyAtJoin(a, b);
      assert s[1..] == a[1..] + ".py" + b;
      ModuleNameKeepsHead(s);
      NoPyInTail(a);
      ModuleNameRemovesLeftmost(a[1..], b);
      assert a + ModuleName(b) == [a[0]] + (a[1..] + ModuleName(b));
    }
  }

  /** Without ".py" at the front, the first character is kept. */
  lemma ModuleNameKeepsHead(s: string)
    requires s != [] && !PyAt(s, 0)
    ensures ModuleName(s) == [s[0]] + ModuleName(s[1..])
  {
  }

  lemma NoPyInTail(a: string)
    requires a != [] && !ContainsPy(a)
    ensures !ContainsPy(a[1..])
  {
    forall i: nat | PyAt(a[1..], i) ensures PyAt(a, i + 1) { }
  }

  /** A ".py" at the front of `a + ".py" + b` would lie within `a`, or would
      need a '.' where 'p' or 'y' stands. */
  lemma NoPyAtJoin(a: string, b: string)
    requires a != [] && !ContainsPy(a)
    ensures !PyAt(a + ".py" + b, 0)
  {
    if |a| >= 3 {
      assert !PyAt(a, 0);
    }
  }

  /** `_load_rule_class`: import the module, then instantiate the class if the
      module has it. */
  function LoadRuleClass(reg: Registry, moduleName: string, className: string): (r: Result<Checker, LoadError>)
    ensures r.Success? <==> moduleName in reg && className in reg[moduleName]
    ensures r.Success? ==> r.value.moduleName == moduleName && r.value.className == className
    ensures moduleName !in reg ==> r == Failure(ModuleNotFound(moduleName))
    ensures moduleName in reg && className !in reg[moduleName] ==> r == Failure(ClassNotFound(className, moduleName))
  {
    if moduleName !in reg then Failure(ModuleNotFound(moduleName))
    else if className !in reg[moduleName] then Failure(ClassNotFound(className, moduleName))
    else Success(Checker(moduleName, className))
  }

  /** The implementation the pool names for `rule`. */
  function Resolve(pool: Pool, reg: Registry, rule: string): Result<Checker, LoadError>
    requires rule in pool
  {
    LoadRuleClass(reg, ModuleName(pool[rule].file), pool[rule].className)
  }

  /** How one scheduled rule fares: its implementation may be missing, its
      configuration may not be a mapping (printing its mode fails), or its
      checker fails or passes. */
  datatype Step = Unresolved(error: LoadError) | NotMapping | Fails(checker: Checker) | Passes(checker: Checker)

  function StepOf(pool: Pool, reg: Registry, oracle: Oracle, e: Entry): (r: Step)
    requires e.0 in pool
    ensures r.Unresolved? <==> Resolve(pool, reg, e.0).Failure?
    ensures r.Unresolved? ==> r.error == Resolve(pool, reg, e.0).error
    ensures r.NotMapping? <==> Resolve(pool, reg, e.0).Success? && !e.1.Block?
    ensures r.Fails? || r.Passes? ==> Resolve(pool, reg, e.0) == Success(r.checker) && e.1.Block?
    ensures r.Passes? ==> oracle(r.checker, e.1)
    ensures r.Fails? ==> !oracle(r.checker, e.1)
  {
    match Resolve(pool, reg, e.0)
    case Failure(err) => Unresolved(err)
    case Success(c) =>
      if !e.1.Block? then NotMapping
      else if oracle(c, e.1) then Passes(c) else Fails(c)
  }

  /** The rule is resolved and checked without failure. */
  predicate Succeeds(pool: Pool, reg: Registry, oracle: Oracle, e: Entry) {
    e.0 in pool && StepOf(pool, reg, oracle, e).Passes?
  }

  /** The error a rule that does not succeed stops the run with. */
  function StepError(rule: string, s: Step): RunError
    requires !s.Passes?
  {
    match s
    case Unresolved(err) => LoadFailed(err)
    case NotMapping => ConfigNotMapping(rule)
    case Fails(_) => CheckFailed(rule)
  }

  /** The index of the first scheduled rule that does not succeed, or `|rules|`. */
  function HaltIndex(pool: Pool, reg: Registry, oracle: Oracle, rules: seq<Entry>): (k: nat)
    ensures k <= |rules|
    ensures forall j :: 0 <= j < k ==> Succeeds(pool, reg, oracle, rules[j])
    ensures k < |rules| ==> !Succeeds(pool, reg, oracle, rules[k])
  {
    if rules == [] || !Succeeds(pool, reg, oracle, rules[0]) then 0
    else 1 + HaltIndex(pool, reg, oracle, rules[1..])
  }

  /** The `(rule, config)` pairs the checkers were invoked with, in order. */
  function Checks(trace: seq<Event>): seq<Entry>
  {
    if trace == [] then []
    else (if trace[0].Checked? then [(trace[0].rule, trace[0].config)] else []) + Checks(trace[1..])
  }

  /** The rules a report was emitted for, in order. */
  function Reports(trace: seq<Event>): seq<string>
  {
    if trace == [] then []
    else (if trace[0].Reported? then [trace[0].rule] else []) + Reports(trace[1..])
  }

  /** A `(rule, config)` pair is among the checks exactly when the trace holds
      a check event for it. */
  lemma {:induction false} ChecksAreCheckEvents(trace: seq<Event>, e: Entry)
    ensures e in Checks(trace) <==>
              exists i :: 0 <= i < |trace| && trace[i].Checked? && (trace[i].rule, trace[i].config) == e
  {
    if trace != [] {
      ChecksAreCheckEvents(trace[1..], e);
      if e in Checks(trace[1..]) {
        var i :| 0 <= i < |trace[1..]| && trace[1..][i].Checked? && (trace[1..][i].rule, trace[1..][i].config) == e;
        assert trace[i + 1] == trace[1..][i];
      }
      if exists i :: 0 <= i < |trace| && trace[i].Checked? && (trace[i].rule, trace[i].config) == e {
        var i :| 0 <= i < |trace| && trace[i].Checked? && (trace[i].rule, trace[i].config) == e;
        if i > 0 {
          assert trace[1..][i - 1] == trace[i];
        }
      }
    }
  }

  /** A rule is among the reports exactly when the trace holds a report event for it. */
  lemma {:induction false} ReportsAreReportEvents(trace: seq<Event>, rule: string)
    ensures rule in Reports(trace) <==>
              exists i :: 0 <= i < |trace| && trace[i].Reported? && trace[i].rule == rule
  {
    if trace != [] {
      ReportsAreReportEvents(trace[1..], rule);
      if rule in Reports(trace[1..]) {
        var i :| 0 <= i < |trace[1..]| && trace[1..][i].Reported? && trace[1..][i].rule == rule;
        assert trace[i + 1] == trace[1..][i];
      }
      if exists i :: 0 <= i < |trace| && trace[i].Reported? && trace[i].rule == rule {
        var i :| 0 <= i < |trace| && trace[i].Reported? && trace[i].rule == rule;
        if i > 0 {
          assert trace[1..][i - 1] == trace[i];
        }
      }
    }
  }

  /** Each report comes right after the check of the same rule. */
  predicate ReportsFollowChecks(trace: seq<Event>) {
    forall i :: 0 <= i < |trace| && trace[i].Reported? ==>
      0 < i && trace[i - 1].Checked? && trace[i - 1].rule == trace[i].rule
  }

  /** Each check uses the implementation the pool names for its rule. */
  predicate ChecksUseResolvedClass(pool: Pool, reg: Registry, trace: seq<Event>) {
    forall i :: 0 <= i < |trace| && trace[i].Checked? ==>
      trace[i].rule in pool && Resolve(pool, reg, trace[i].rule) == Success(trace[i].checker)
  }

  lemma ResolvedAppend(pool: Pool, reg: Registry, a: seq<Event>, b: seq<Event>)
    requires ChecksUseResolvedClass(pool, reg, a) && ChecksUseResolvedClass(pool, reg, b)
    ensures ChecksUseResolvedClass(pool, reg, a + b)
  {
    forall i | 0 <= i < |a + b| && (a + b)[i].Checked?
      ensures (a + b)[i].rule in pool && Resolve(pool, reg, (a + b)[i].rule) == Success((a + b)[i].checker)
    {
      if i >= |a| {
        assert (a + b)[i] == b[i - |a|];
      }
    }
  }

  lemma {:induction false} ChecksAppend(a: seq<Event>, b: seq<Event>)
    ensures Checks(a + b) == Checks(a) + Checks(b)
  {
    if a == [] {
      assert a + b == b;
    } else {
      assert (a + b)[0] == a[0];
      assert (a + b)[1..] == a[1..] + b;
      ChecksAppend(a[1..], b);
    }
  }

  lemma {:induction false} ReportsAppend(a: seq<Event>, b: seq<Event>)
    ensures Reports(a + b) == Reports(a) + Reports(b)
  {
    if a == [] {
      assert a + b == b;
    } else {
      assert (a + b)[0] == a[0];
      assert (a + b)[1..] == a[1..] + b;
      ReportsAppend(a[1..], b);
    }
  }

  /** The events one successful rule contributes. */
  function RuleEvents(rule: string, checker: Checker, config: TaskValue, report: bool): (t: seq<Event>)
    ensures Checks(t) == [(rule, config)]
    ensures Reports(t) == if report then [rule] else []
    ensures ReportsFollowChecks(t)
  {
    var t := [Checked(rule, checker, config)] + (if report then [Reported(rule)] else []);
    var tail := if report then [Reported(rule)] else [];
    assert t[1..] == tail;
    assert Checks(tail) == [] && Reports(tail) == (if report then [rule] else []) by {
      if report {
        assert tail[1..] == [];
      }
    }
    t
  }

  lemma FollowsAppend(a: seq<Event>, b: seq<Event>)
    requires ReportsFollowChecks(a) && ReportsFollowChecks(b)
    ensures ReportsFollowChecks(a + b)
  {
    forall i | 0 <= i < |a + b| && (a + b)[i].Reported?
      ensures 0 < i && (a + b)[i - 1].Checked? && (a + b)[i - 1].rule == (a + b)[i].rule
    {
      if i >= |a| {
        assert (a + b)[i] == b[i - |a|];
        assert (a + b)[i - 1] == b[i - 1 - |a|];
      }
    }
  }

  /** The loop of `run_task` over the schedule: for each rule in order,
      resolve, check, report if enabled; the first error ends the run. The run
      completes exactly when no scheduled rule fails. */
  function RunRules(pool: Pool, reg: Registry, oracle: Oracle, report: bool, rules: seq<Entry>): (run: Run)
    requires InPool(pool, rules)
    ensures run.outcome.Completed? <==> HaltIndex(pool, reg, oracle, rules) == |rules|
    ensures ReportsFollowChecks(run.trace)
  {
    if rules == [] then Run([], Completed)
    else
      var (name, config) := rules[0];
      match StepOf(pool, reg, oracle, rules[0])
      case Unresolved(err) => Run([], Aborted(LoadFailed(err)))
      case NotMapping => Run([], Aborted(ConfigNotMapping(name)))
      case Fails(c) => Run([Checked(name, c, config)], Aborted(CheckFailed(name)))
      case Passes(c) =>
        var head := RuleEvents(name, c, config, report);
        var rest := RunRules(pool, reg, oracle, report, rules[1..]);
        FollowsAppend(head, rest.trace);
        Run(head + rest.trace, rest.outcome)
  }

  /** A run that stops early names the first rule that did not succeed and why. */
  lemma {:induction false} AbortNamesFirstFailure(pool: Pool, reg: Registry, oracle: Oracle, report: bool, rules: seq<Entry>)
    requires InPool(pool, rules)
    ensures var k := HaltIndex(pool, reg, oracle, rules);
            k < |rules| ==>
              RunRules(pool, reg, oracle, report, rules).outcome
                == Aborted(StepError(rules[k].0, StepOf(pool, reg, oracle, rules[k])))
  {
    if rules != [] && Succeeds(pool, reg, oracle, rules[0]) {
      AbortNamesFirstFailure(pool, reg, oracle, report, rules[1..]);
    }
  }

  /** When every scheduled configuration is a mapping, an aborted loop stopped
      on a missing implementation or a failing checker. */
  lemma BlockConfigsAbortOnlyOnLoadOrCheck(pool: Pool, reg: Registry, oracle: Oracle, report: bool, rules: seq<Entry>)
    requires InPool(pool, rules)
    requires forall i :: 0 <= i < |rules| ==> rules[i].1.Block?
    ensures var run := RunRules(pool, reg, oracle, report, rules);
            run.outcome.Aborted? ==> run.outcome.error.LoadFailed? || run.outcome.error.CheckFailed?
  {
    var k := HaltIndex(pool, reg, oracle, rules);
    AbortNamesFirstFailure(pool, reg, oracle, report, rules);
    if k < |rules| {
      assert rules[k].1.Block?;
    }
  }

  /** One step of the loop: a rule that succeeds contributes its check (and
      its report, when enabled) ahead of whatever the rest of the run does. */
  lemma RunPassingHead(pool: Pool, reg: Registry, oracle: Oracle, report: bool, rules: seq<Entry>)
    requires InPool(pool, rules)
    requires rules != [] && StepOf(pool, reg, oracle, rules[0]).Passes?
    ensures Checks(RunRules(pool, reg, oracle, report, rules).trace)
         == [rules[0]] + Checks(RunRules(pool, reg, oracle, report, rules[1..]).trace)
    ensures Reports(RunRules(pool, reg, oracle, report, rules).trace)
         == (if report then [rules[0].0] else []) + Reports(RunRules(pool, reg, oracle, report, rules[1..]).trace)
    ensures HaltIndex(pool, reg, oracle, rules) == 1 + HaltIndex(pool, reg, oracle, rules[1..])
  {
    var step := StepOf(pool, reg, oracle, rules[0]);
    var head := RuleEvents(rules[0].0, step.checker, rules[0].1, report);
    var rest := RunRules(pool, reg, oracle, report, rules[1..]);
    ChecksAppend(head, rest.trace);
    ReportsAppend(head, rest.trace);
  }

  /** Rules are checked strictly in schedule order, each once with its own
      configuration: every rule before the first failure, plus the failing
      rule itself when it was its checker that failed; no later rule runs. */
  lemma {:induction false} ChecksFollowSchedule(pool: Pool, reg: Registry, oracle: Oracle, report: bool, rules: seq<Entry>)
    requires InPool(pool, rules)
    ensures var k := HaltIndex(pool, reg, oracle, rules);
            Checks(RunRules(pool, reg, oracle, report, rules).trace)
              == rules[..k] + (if k < |rules| && StepOf(pool, reg, oracle, rules[k]).Fails? then [rules[k]] else [])
  {
    if rules != [] {
      var step := StepOf(pool, reg, oracle, rules[0]);
      var run := RunRules(pool, reg, oracle, report, rules);
      if step.Passes? {
        ChecksFollowSchedule(pool, reg, oracle, report, rules[1..]);
        ChecksPassingStep(pool, reg, oracle, report, rules);
      } else if step.Fails? {
        var ev := Checked(rules[0].0, step.checker, rules[0].1);
        assert run.trace == [ev];
        assert [ev][1..] == [];
        assert Checks(run.trace) == [rules[0]];
        assert HaltIndex(pool, reg, oracle, rules) == 0;
      } else {
        assert run.trace == [];
        assert HaltIndex(pool, reg, oracle, rules) == 0;
      }
    }
  }

  /** The inductive step of `ChecksFollowSchedule`: a passing head extends the
      checks of the rest of the run by one rule. */
  lemma ChecksPassingStep(pool: Pool, reg: Registry, oracle: Oracle, report: bool, rules: seq<Entry>)
    requires InPool(pool, rules) && rules != [] && StepOf(pool, reg, oracle, rules[0]).Passes?
    requires var tail := rules[1..];
             var k := HaltIndex(pool, reg, oracle, tail);
             Checks(RunRules(pool, reg, oracle, report, tail).trace)
               == tail[..k] + (if k < |tail| && StepOf(pool, reg, oracle, tail[k]).Fails? then [tail[k]] else [])
    ensures var k := HaltIndex(pool, reg, oracle, rules);
            Checks(RunRules(pool, reg, oracle, report, rules).trace)
              == rules[..k] + (if k < |rules| && StepOf(pool, reg, oracle, rules[k]).Fails? then [rules[k]] else [])
  {
    RunPassingHead(pool, reg, oracle, report, rules);
    var k' := HaltIndex(pool, reg, oracle, rules[1..]);
    var extra := if k' + 1 < |rules| && StepOf(pool, reg, oracle, rules[k' + 1]).Fails? then [rules[k' + 1]] else [];
    assert k' < |rules[1..]| ==> rules[1..][k'] == rules[k' + 1];
    assert Checks(RunRules(pool, reg, oracle, report, rules[1..]).trace) == rules[1..][..k'] + extra;
    ConsPrefix(rules, k', extra);
  }

  /** A report is emitted for exactly the rules checked successfully, in
      order, and only when reporting is enabled; a failing rule gets none. */
  lemma {:induction false} ReportsFollowSuccesses(pool: Pool, reg: Registry, oracle: Oracle, report: bool, rules: seq<Entry>)
    requires InPool(pool, rules)
    ensures var k := HaltIndex(pool, reg, oracle, rules);
            Reports(RunRules(pool, reg, oracle, report, rules).trace) == (if report then Keys(rules[..k]) else [])
  {
    if rules != [] {
      var step := StepOf(pool, reg, oracle, rules[0]);
      var run := RunRules(pool, reg, oracle, report, rules);
      if step.Passes? {
        ReportsFollowSuccesses(pool, reg, oracle, report, rules[1..]);
        RunPassingHead(pool, reg, oracle, report, rules);
        KeysOfLongerPrefix(rules, HaltIndex(pool, reg, oracle, rules[1..]));
      } else if step.Fails? {
        assert run.trace == [Checked(rules[0].0, step.checker, rules[0].1)];
        assert Reports(run.trace) == [];
      } else {
        assert run.trace == [];
      }
    }
  }

  /** Every checker invoked is the implementation the pool names for its rule. */
  lemma {:induction false} ChecksUseResolvedClasses(pool: Pool, reg: Registry, oracle: Oracle, report: bool, rules: seq<Entry>)
    requires InPool(pool, rules)
    ensures ChecksUseResolvedClass(pool, reg, RunRules(pool, reg, oracle, report, rules).trace)
  {
    if rules != [] {
      var step := StepOf(pool, reg, oracle, rules[0]);
      var run := RunRules(pool, reg, oracle, report, rules);
      if step.Passes? {
        var head := RuleEvents(rules[0].0, step.checker, rules[0].1, report);
        var rest := RunRules(pool, reg, oracle, report, rules[1..]);
        assert run.trace == head + rest.trace;
        assert ChecksUseResolvedClass(pool, reg, head) by {
          assert head[0] == Checked(rules[0].0, step.checker, rules[0].1);
        }
        ChecksUseResolvedClasses(pool, reg, oracle, report, rules[1..]);
        ResolvedAppend(pool, reg, head, rest.trace);
      } else if step.Fails? {
        assert run.trace == [Checked(rules[0].0, step.checker, rules[0].1)];
      } else {
        assert run.trace == [];
      }
    }
  }

  /** The loop stops at the first rule that does not succeed: the rules before
      it were checked (and reported, when enabled), its own checker was invoked
      only if it was resolved, and the run aborts with its error. */
  lemma LoopStopsAtFirstFailure(pool: Pool, reg: Registry, oracle: Oracle, report: bool, rules: seq<Entry>, k: nat)
    requires InPool(pool, rules)
    requires k < |rules|
    requires forall j :: 0 <= j < k ==> Succeeds(pool, reg, oracle, rules[j])
    requires !Succeeds(pool, reg, oracle, rules[k])
    ensures RunRules(pool, reg, oracle, report, rules).outcome
         == Aborted(StepError(rules[k].0, StepOf(pool, reg, oracle, rules[k])))
    ensures Checks(RunRules(pool, reg, oracle, report, rules).trace)
         == rules[..k] + (if StepOf(pool, reg, oracle, rules[k]).Fails? then [rules[k]] else [])
    ensures Reports(RunRules(pool, reg, oracle, report, rules).trace)
         == (if report then Keys(rules[..k]) else [])
  {
    assert HaltIndex(pool, reg, oracle, rules) == k;
    AbortNamesFirstFailure(pool, reg, oracle, report, rules);
    ChecksFollowSchedule(pool, reg, oracle, report, rules);
    ReportsFollowSuccesses(pool, reg, oracle, report, rules);
  }

  /** Every scheduled rule is resolved and checked without failure. */
  predicate AllSucceed(pool: Pool, reg: Registry, oracle: Oracle, rules: seq<Entry>) {
    forall i :: 0 <= i < |rules| ==> Succeeds(pool, reg, oracle, rules[i])
  }

  /** The loop runs to the end exactly when every rule succeeds. */
  lemma HaltAtEndIffAllSucceed(pool: Pool, reg: Registry, oracle: Oracle, rules: seq<Entry>)
    ensures HaltIndex(pool, reg, oracle, rules) == |rules| <==> AllSucceed(pool, reg, oracle, rules)
  {
  }

  /** `run_task`: read the task's `name` and `report` entries (a missing one is
      a key error before anything runs), compute the schedule, then run it
      with reporting as the truth value of `report`. */
  function RunTask(pool: Pool, reg: Registry, oracle: Oracle, task: TaskInfo): (run: Run)
    ensures Lookup(task, NameKey).None? ==> run == Run([], Aborted(MissingTaskKey(NameKey)))
    ensures Lookup(task, NameKey).Some? && Lookup(task, ReportKey).None? ==> run == Run([], Aborted(MissingTaskKey(ReportKey)))
    ensures GetSortedRules(pool, task).Failure? ==> run.trace == [] && run.outcome.Aborted?
    ensures Lookup(task, NameKey).Some? && Lookup(task, ReportKey).Some? && GetSortedRules(pool, task).Failure? ==>
              run == Run([], Aborted(ScheduleFailed(GetSortedRules(pool, task).error)))
    ensures ReportsFollowChecks(run.trace)
  {
    match Lookup(task, NameKey)
    case None => Run([], Aborted(MissingTaskKey(NameKey)))
    case Some(_) =>
      match Lookup(task, ReportKey)
      case None => Run([], Aborted(MissingTaskKey(ReportKey)))
      case Some(flag) =>
        match GetSortedRules(pool, task)
        case Failure(err) => Run([], Aborted(ScheduleFailed(err)))
        case Success(rules) => RunRules(pool, reg, oracle, Truthy(flag), rules)
  }

  /** With both header entries present and a schedule computed, `run_task` is its loop. */
  lemma RunTaskRunsSchedule(pool: Pool, reg: Registry, oracle: Oracle, task: TaskInfo)
    requires Lookup(task, NameKey).Some? && Lookup(task, ReportKey).Some?
    requires GetSortedRules(pool, task).Success?
    ensures RunTask(pool, reg, oracle, task)
         == RunRules(pool, reg, oracle, Truthy(Lookup(task, ReportKey).value), GetSortedRules(pool, task).value)
  {
  }

  /** The run reaches "completed" exactly when `name` and `report` are present,
      the schedule exists, and every scheduled rule is resolved and checked
      without failure. */
  lemma RunTaskCompletes(pool: Pool, reg: Registry, oracle: Oracle, task: TaskInfo)
    ensures RunTask(pool, reg, oracle, task).outcome.Completed? <==>
              && Lookup(task, NameKey).Some?
              && Lookup(task, ReportKey).Some?
              && GetSortedRules(pool, task).Success?
              && AllSucceed(pool, reg, oracle, GetSortedRules(pool, task).value)
  {
    if Lookup(task, NameKey).Some? && Lookup(task, ReportKey).Some? && GetSortedRules(pool, task).Success? {
      RunTaskRunsSchedule(pool, reg, oracle, task);
      HaltAtEndIffAllSucceed(pool, reg, oracle, GetSortedRules(pool, task).value);
    }
  }

  /** A completed run has checked every scheduled rule, in schedule order, and
      reported each of them exactly when `report` is true. */
  lemma CompletedRunCoversSchedule(pool: Pool, reg: Registry, oracle: Oracle, task: TaskInfo)
    requires RunTask(pool, reg, oracle, task).outcome.Completed?
    ensures GetSortedRules(pool, task).Success? && Lookup(task, ReportKey).Some?
    ensures var rules := GetSortedRules(pool, task).value;
            && Checks(RunTask(pool, reg, oracle, task).trace) == rules
            && Reports(RunTask(pool, reg, oracle, task).trace)
                 == (if Truthy(Lookup(task, ReportKey).value) then Keys(rules) else [])
  {
    RunTaskRunsSchedule(pool, reg, oracle, task);
    CompletedLoopCoversRules(pool, reg, oracle, Truthy(Lookup(task, ReportKey).value), GetSortedRules(pool, task).value);
  }

  /** The loop of `run_task`, run to completion, checked every rule it was given. */
  lemma CompletedLoopCoversRules(pool: Pool, reg: Registry, oracle: Oracle, report: bool, rules: seq<Entry>)
    requires InPool(pool, rules)
    requires RunRules(pool, reg, oracle, report, rules).outcome.Completed?
    ensures Checks(RunRules(pool, reg, oracle, report, rules).trace) == rules
    ensures Reports(RunRules(pool, reg, oracle, report, rules).trace) == (if report then Keys(rules) else [])
  {
    assert rules[..|rules|] == rules;
    ChecksFollowSchedule(pool, reg, oracle, report, rules);
    ReportsFollowSuccesses(pool, reg, oracle, report, rules);
  }
}
