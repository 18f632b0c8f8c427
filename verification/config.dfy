/** The data the pipeline works on: the rules pool and the task, as loaded
    from their declarative sources. */
module Config {
  import opened Wrappers

  /** One rules-pool entry: the fields a task must supply, the modes the rule
      accepts, its priority (lower runs first), a display-only check
      granularity, and the implementing file and class. */
  datatype Descriptor = Descriptor(
    fields: seq<string>,
    supportModes: seq<string>,
    priority: int,
    checkMode: string,
    file: string,
    className: string)

  /** The rules pool: rule name to descriptor. */
  type Pool = map<string, Descriptor>

  /** A task's configuration for one rule; field values are opaque. */
  datatype Invocation = Invocation(
    mode: string,
    start: string,
    end: string,
    fields: map<string, string>)

  /** A value in the task mapping: the task name, the report flag, or a rule's
      configuration block. */
  datatype TaskValue = Text(text: string) | Flag(flag: bool) | Block(inv: Invocation)

  /** One `(key, value)` item of the task mapping. */
  type Entry = (string, TaskValue)

  predicate DistinctKeys(t: seq<Entry>) {
    forall i, j :: 0 <= i < j < |t| ==> t[i].0 != t[j].0
  }

  /** The task mapping in insertion order; keys are distinct, as in a dictionary. */
  type TaskInfo = t: seq<Entry> | DistinctKeys(t)

  const NameKey: string := "name"
  const ReportKey: string := "report"

  /** The task-level keys that are not rule names. */
  predicate IsReserved(key: string) {
    key == NameKey || key == ReportKey
  }

  /** The value stored under `key` (the first one, which is the only one in a `TaskInfo`). */
  function Lookup(task: seq<Entry>, key: string): (r: Option<TaskValue>)
    ensures r.None? <==> forall i :: 0 <= i < |task| ==> task[i].0 != key
    ensures r.Some? ==> exists i :: 0 <= i < |task| && task[i] == (key, r.value)
  {
    if task == [] then None
    else if task[0].0 == key then Some(task[0].1)
    else Lookup(task[1..], key)
  }

  /** In a mapping with distinct keys, the value found is the one stored with the key. */
  lemma LookupFindsStoredValue(task: TaskInfo, i: nat)
    requires i < |task|
    ensures Lookup(task, task[i].0) == Some(task[i].1)
  {
    var r := Lookup(task, task[i].0);
    var j :| 0 <= j < |task| && task[j] == (task[i].0, r.value);
    assert j == i;
  }

  /** The entries of the task that name rules: everything except `name` and
      `report`, in task order. */
  function RuleEntries(task: seq<Entry>): (r: seq<Entry>)
    ensures |r| <= |task|
    ensures forall i :: 0 <= i < |r| ==> !IsReserved(r[i].0)
    ensures forall e :: e in r <==> e in task && !IsReserved(e.0)
  {
    if task == [] then []
    else (if IsReserved(task[0].0) then [] else [task[0]]) + RuleEntries(task[1..])
  }

  /** Filtering distributes over concatenation, so it keeps the task order. */
  lemma {:induction false} RuleEntriesAppend(a: seq<Entry>, b: seq<Entry>)
    ensures RuleEntries(a + b) == RuleEntries(a) + RuleEntries(b)
  {
    if a == [] {
      assert a + b == b;
    } else {
      assert (a + b)[0] == a[0];
      assert (a + b)[1..] == a[1..] + b;
      RuleEntriesAppend(a[1..], b);
    }
  }

  /** Python truthiness of a task value: a non-empty string, `True`, or a
      (non-empty) configuration mapping. */
  predicate Truthy(v: TaskValue)
    ensures Truthy(v) <==> v != Text("") && v != Flag(false)
  {
    match v
    case Text(s) => s != []
    case Flag(b) => b
    case Block(_) => true
  }

  /** The keys of a sequence of entries, in order. */
  function Keys(s: seq<Entry>): (ks: seq<string>)
    ensures |ks| == |s|
    ensures forall i :: 0 <= i < |s| ==> ks[i] == s[i].0
  {
    seq(|s|, i requires 0 <= i < |s| => s[i].0)
  }

  /** The keys of a longer prefix: the head's key, then the tail prefix's keys. */
  lemma KeysOfLongerPrefix(s: seq<Entry>, k: nat)
    requires k < |s|
    ensures Keys(s[..k + 1]) == [s[0].0] + Keys(s[1..][..k])
  {
    assert s[..k + 1] == [s[0]] + s[1..][..k];
  }
}
