# Rule-driven task pipeline, modelled in Dafny

This project models the core of a small database-verification tool. It takes a
**rules pool** and a **task**:

- The rules pool maps a rule name to a descriptor: required fields, supported
  modes, priority, check granularity, implementing file and class.
- The task is an ordered mapping. It holds `name`, `report` and one
  configuration block per rule.

The tool processes them in three stages:

1. **Validation** (`TaskLoader.validate_task`). Each entry that is not `name`
   or `report` is checked in task order, and the first problem stops
   validation. The checks run in this order:
   - the rule must be in the pool;
   - the lower-cased mode must be one of the rule's supported modes;
   - every required field must be provided.
2. **Scheduling** (`TaskLoader.get_sorted_rules`). The tool drops `name` and
   `report`, then stable-sorts the remaining entries by pool priority, lowest
   first.
3. **Running** (`TaskRunner.run_task`, `_load_rule_class`). For each scheduled
   rule in order, the runner:
   - derives the module name by removing every `".py"` from `file`;
   - imports the module and instantiates the class;
   - invokes the checker on the rule's configuration;
   - emits a report event when `report` is truthy.

   The first error ends the run.

The entry script (`run.py`) validates the task and then runs it.

## How the model is built

Modules, in dependency order:

- `Wrappers`: `Option`, `Result`, `Outcome`.
- `Lists`: the left-to-right "first missing element" scan.
- `Ascii`: ASCII lower-casing.
- `Config`: descriptors, the pool and the task. The task is a sequence of
  `(key, value)` entries with distinct keys, so the insertion order that
  Python dictionaries keep is explicit.
- `Validation`, `Scheduling`, `Runner`: the three stages.
- `Pipeline`: the entry script.
- `Scenarios`: concrete worked examples.

Further modelling choices:

- **Dynamic import.** It is a `Registry`: a map from module name to the set of
  class names that module exports.
- **A checker's `check` call.** It is an `Oracle` that says whether the call
  returns normally. `check`'s return value is ignored by the source
  (runner.py:65), so a failing checker is one whose `check` raises. That
  exception propagates uncaught and ends the run.
- **The run.** It is a pure function that returns a trace of `Checked` and
  `Reported` events plus an outcome.
- **Python exceptions** become explicit error values:
  - a missing `name` or `report` key in `run_task`;
  - a rule with no pool entry during the sort;
  - a module or class that cannot be found;
  - a rule configuration that is not a mapping (`rule_config["mode"]` fails);
  - a failing checker.

Three points where the code's behaviour is easy to misread, and which the
model follows as written:

- Only the task's mode is lower-cased. The pool's `support_mode` entries are
  compared exactly as written (`Validation.UppercasePoolModeNeverMatches`).
- A missing module and a missing class are two different errors. The module
  case is an import error raised by `importlib`; the class case is the
  `ValueError` at runner.py:32.
- Reporting follows Python truthiness of the `report` value over the values
  the model holds: a string is truthy when non-empty, a boolean when `True`,
  and a configuration mapping always.

## Model

| member | source | states |
|---|---|---|
| Lists.FirstMissingIndex | loader.py:57-59 | The scan stops at the first required field that is not provided, and every field before it is provided. |
| Ascii.Lower | loader.py:50 | Lower-casing keeps the length, maps each character through the ASCII case map, and leaves no upper-case letter. |
| Ascii.LowerIdempotent | loader.py:50 | Lower-casing an already lower-cased mode changes nothing. |
| Config.Lookup | runner.py:38-39 | Reading a task key gives nothing exactly when no entry has that key; otherwise the value is one stored under that key. |
| Config.LookupFindsStoredValue | runner.py:38-39 | In a task with distinct keys, reading an entry's key returns that entry's own value. |
| Config.RuleEntries | loader.py:84 | The rule entries are exactly the task entries whose key is not `name` or `report`. |
| Config.Truthy | runner.py:68 | The only falsy `report` values are the empty string and `False`. |
| Config.RuleEntriesAppend | loader.py:84 | Filtering distributes over concatenation, so task order is preserved. |
| Validation.CheckEntry | loader.py:41-59 | An entry passes exactly when it is reserved, or its rule is in the pool, its config is a mapping, its lower-cased mode is supported and all required fields are provided. The checks run in source order: a rule missing from the pool gives an unknown-rule error, and only such a rule does. A config that is not a mapping gives the malformed-config error exactly for pool rules. An unsupported lower-cased mode gives the unsupported-mode error carrying that mode. A supported mode with a missing field gives the missing-field error, naming the first missing field in the pool's order. Every error names the entry's rule. |
| Validation.Validate | loader.py:41-59 | Validation passes exactly when every entry of the task satisfies the entry conditions. A reported error never names `name` or `report`. |
| Validation.FirstViolationReported | loader.py:41-59 | Fail-fast: the error reported is the one for the first violating entry, whatever later entries hold. |
| Validation.ReservedEntriesSkipped | loader.py:41-43 | Validating a task equals validating its rule entries alone, whatever `name` and `report` hold. |
| Validation.ModeCaseIgnored | loader.py:50-52 | The letter case of the task's mode never changes the outcome of the entry check. |
| Validation.UppercasePoolModeNeverMatches | loader.py:50-52 | A pool mode written with an upper-case letter never matches, because only the task's mode is lower-cased. |
| Validation.ExtraFieldsHarmless | loader.py:55-59 | Providing additional fields never turns a passing entry into a failing one. |
| Scheduling.Insert | loader.py:87-90 | Insertion adds exactly the new entry to the multiset of entries. |
| Scheduling.InsertKeepsSorted | loader.py:87-90 | Inserting into a priority-sorted sequence keeps it sorted. |
| Scheduling.InsertKeepsOrder | loader.py:87-90 | Within the new entry's priority, it lands ahead of the existing entries; other priority classes are unchanged. |
| Scheduling.SortByPriority | loader.py:87-90 | The result is a permutation of the input. Priorities never decrease along it, and within each priority the input order is kept (stability). |
| Scheduling.GetSortedRules | loader.py:84-90 | Scheduling succeeds exactly when every rule entry is in the pool. On success the schedule is a stably sorted permutation of the rule entries, with each config unchanged. On failure the error names the first rule entry, in task order, that has no pool entry. |
| Scheduling.StableSortUnique | loader.py:87-90 | Two priority-sorted sequences that order every priority class alike are equal. |
| Scheduling.ScheduleIsTheStableSort | loader.py:84-90 | Any sorted ordering of the rule entries that keeps task order within each priority is exactly the schedule. |
| Runner.ModuleName | runner.py:52 | A file name without ".py" is its own module name. |
| Runner.ModuleNameRemovesLeftmost | runner.py:52 | For a prefix `a` without ".py", the name `a + ".py" + b` becomes `a` followed by the module name of `b`: the leftmost ".py" is deleted and the rest is scanned again, so every non-overlapping occurrence goes, as `str.replace` removes them all. |
| Runner.ModuleNameOfPyFile | runner.py:52 | For a module name `m` that holds no ".py", the file `m + ".py"` maps back to `m`. |
| Runner.LoadRuleClass | runner.py:16-32 | Loading succeeds exactly when the module exists and exports the class, and the checker is that module's class. A missing module and a missing class give distinct errors naming what is missing. |
| Runner.StepOf | runner.py:49-65 | One rule's step resolves first, then needs a mapping config, then asks the checker. A load error is reported exactly when resolution fails. The non-mapping case arises exactly for a resolved rule whose config is not a mapping. A checker runs only on a resolved class and a mapping config, and passes exactly when the oracle says so. |
| Runner.ChecksAreCheckEvents | runner.py:65 | A `(rule, config)` pair is among the checks exactly when the trace holds a check event for it. |
| Runner.ReportsAreReportEvents | runner.py:68-69 | A rule is among the reports exactly when the trace holds a report event for it. |
| Runner.HaltIndex | runner.py:47-65 | The halt index is the first scheduled rule that does not succeed; every rule before it succeeds. |
| Runner.RunRules | runner.py:47-69 | The loop completes exactly when no scheduled rule fails. Every report comes immediately after the check of the same rule. |
| Runner.AbortNamesFirstFailure | runner.py:47-65 | An early stop carries the error of the first rule that did not succeed: a load error, a non-mapping config, or a failed check. |
| Runner.ChecksFollowSchedule | runner.py:45-65 | The checkers invoked are those of the schedule's prefix up to the halt index, in schedule order, each with its own config. The failing rule's checker is included when it was resolved and invoked. |
| Runner.ReportsFollowSuccesses | runner.py:65-69 | Reports are emitted for exactly the rules checked successfully, in order, and only when reporting is enabled. |
| Runner.ChecksUseResolvedClasses | runner.py:49-54 | Every checker invoked is the class the pool names for its rule, loaded from the module derived from its file. |
| Runner.LoopStopsAtFirstFailure | runner.py:47-69 | A failure at rule k aborts with k's error after rules 0..k-1 were checked and reported. Rule k's checker was invoked only if it resolved. Nothing after k runs. |
| Runner.BlockConfigsAbortOnlyOnLoadOrCheck | runner.py:54-65 | When every config is a mapping, an aborted loop stopped on a load error or a failed check. |
| Runner.HaltAtEndIffAllSucceed | runner.py:47-73 | The loop reaches its end exactly when every scheduled rule succeeds. |
| Runner.RunTask | runner.py:34-47 | A missing `name` or `report` key aborts before anything runs, `name` first. With both present, a failed schedule aborts with that schedule error and an empty trace. Reports always follow their checks. |
| Runner.RunTaskRunsSchedule | runner.py:38-47 | With `name` and `report` present and a schedule computed, the run is the loop over that schedule, with reporting set by the truthiness of `report`. |
| Runner.RunTaskCompletes | runner.py:38-73 | `run_task` completes exactly when `name` and `report` are present, scheduling succeeds and every scheduled rule succeeds. |
| Runner.CompletedRunCoversSchedule | runner.py:45-69 | A completed run checked every scheduled rule in schedule order, and reported them all exactly when `report` is truthy. |
| Pipeline.ValidTaskRunsCleanly | run.py:14-20 | A valid task is always schedulable. Its run never stops on a missing priority or on a config that is not a mapping. |
| Pipeline.ValidateThenRun | run.py:14-20 | The pipeline rejects exactly the tasks that fail validation, with validation's error and no events. A valid task is handed to `run_task`: the pipeline's events and outcome are exactly that run's. A task that is run never aborts on a scheduling or config error. |
| Pipeline.PipelineCompletes | run.py:14-20 | The pipeline completes exactly when the task is valid, has `name` and `report`, and every scheduled rule succeeds. The checks then cover exactly the task's rule entries. |
| Pipeline.RejectedTaskRunsNothing | run.py:14-20 | A task that fails validation invokes no checker and emits no report. |
| Scenarios.UnknownRuleRunsNothing | loader.py:46-47 | A rule absent from the pool is rejected as unknown by name, and the pipeline then runs nothing. |
| Scenarios.MixedCaseModeAccepted | loader.py:50-52 | Mode "Strict" is accepted by a rule supporting "strict". |
| Scenarios.MissingFieldNamed | loader.py:55-59 | A rule given none of its fields `a`, `b` is rejected naming `a` and the rule. |
| Scenarios.UnsupportedModeNamed | loader.py:50-52 | Mode "LOOSE" is rejected as the lower-cased "loose". |
| Scenarios.LowerPriorityScheduledFirst | loader.py:87-90 | A rule of priority 1 is scheduled before one of priority 5, in either of the two task orders. |
| Scenarios.TiesKeepTaskOrder | loader.py:87-90 | Rules of equal priority keep their task order. |
| Scenarios.FailingCheckStopsRun | runner.py:65-69 | When the first scheduled checker fails, the run aborts with no report and the second checker is never invoked. |
| Scenarios.MissingClassStopsLater | runner.py:47-54 | A missing class for the second rule aborts the run after the first rule was checked and reported. |
| Scenarios.InnerPyRemoved | runner.py:52 | Every ".py" is removed, not only the extension: "x.pyc.py" gives "xc". |

## Left out

- Reading the two YAML files and extracting their top-level keys
  (loader.py:23-24, 32-33) is file I/O through an external parser. The pool
  and the task are given as values.
- The `print` narration (runner.py:41-42, 57-62, 69-73) is presentation. The
  one effect it can have, failing on a rule configuration that is not a
  mapping, is modelled as `ConfigNotMapping`. The report itself is the
  `Reported` event.
- The real `importlib.import_module` and the concrete rule classes under
  `rules/` are not part of this model. They are replaced by the registry map
  and the check oracle. Checkers are treated as stateless, so instantiating a
  class is identified with the checker value it yields.
- Missing keys inside a descriptor or a configuration block (`fields`,
  `support_mode`, `priority`, `check_mode`, `file`, `class`, `mode`,
  `start`, `end`) are not modelled. The datatypes always carry them, so the corresponding
  `KeyError`s cannot arise.
- A class whose constructor raises (`rule_class()`, runner.py:30) is not
  modelled. A resolved class always yields a checker, because the rule
  classes are not part of this model.
- `report` values that a `TaskValue` cannot hold, such as YAML null (falsy)
  or integers, are not modelled. `report` is a string, a boolean or a mapping.
- Non-string `mode` values and field values of other YAML types are not
  modelled. Field values and the `start`/`end` times are opaque strings that
  are only passed through.
- `support_mode` given as a single string, which Python's `in` would treat as
  a substring test, is not modelled. It is a list of strings.
- Full Unicode `str.lower()` is not modelled. `Ascii.Lower` maps only `A`-`Z`.
- `Scheduling.GetSortedRules` is deterministic because it is a function, so no
  separate "same result twice" lemma is stated.
- The getters `get_task_info` and `get_rules_pool` (loader.py:61-75) only
  return stored values. Their results are the pool and task parameters.
- Python's `sorted` is modelled by a stable insertion sort. Its result is
  proved to be the only stably sorted permutation
  (`Scheduling.ScheduleIsTheStableSort`), so the algorithm used does not
  matter.
