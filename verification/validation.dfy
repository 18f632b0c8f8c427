/** `TaskLoader.validate_task`: a fail-fast cross-check of the task against the rules pool. */
module Validation {
  import opened Wrappers
  import opened Lists
  import opened Ascii
  import opened Config

  /** Why a task was rejected; every variant names the offending rule. */
  datatype ValidationError =
    | UnknownRule(rule: string)
    | MalformedConfig(rule: string)
    | UnsupportedMode(mode: string, rule: string)
    | MissingField(field: string, rule: string)

  /** Every field the descriptor requires is a key the invocation provides. */
  predicate ProvidesAll(d: Descriptor, inv: Invocation) {
    forall j :: 0 <= j < |d.fields| ==> d.fields[j] in inv.fields
  }

  /** The three conditions on one task entry, stated independently of the
      order in which the validator tests them. */
  predicate EntryOk(pool: Pool, e: Entry) {
    || IsReserved(e.0)
    || (&& e.0 in pool
        && e.1.Block?
        && Lower(e.1.inv.mode) in pool[e.0].supportModes
        && ProvidesAll(pool[e.0], e.1.inv))
  }

  /** The checks `validate_task` runs on one entry, in its order: reserved key,
      rule in pool, lower-cased mode supported, required fields provided. */
  function CheckEntry(pool: Pool, e: Entry): (r: Outcome<ValidationError>)
    ensures r.Pass? <==> EntryOk(pool, e)
    ensures r.Fail? ==> r.error.rule == e.0 && !IsReserved(e.0)
    ensures r.Fail? && !r.error.UnknownRule? ==> e.0 in pool
    ensures !IsReserved(e.0) && e.0 !in pool ==> r == Fail(UnknownRule(e.0))
    ensures r.Fail? && r.error.UnknownRule? ==> e.0 !in pool
    ensures r.Fail? && r.error.MalformedConfig? <==> !IsReserved(e.0) && e.0 in pool && !e.1.Block?
    ensures !IsReserved(e.0) && e.0 in pool && e.1.Block? && Lower(e.1.inv.mode) !in pool[e.0].supportModes ==>
              r == Fail(UnsupportedMode(Lower(e.1.inv.mode), e.0))
    ensures (&& !IsReserved(e.0) && e.0 in pool && e.1.Block?
             && Lower(e.1.inv.mode) in pool[e.0].supportModes
             && !ProvidesAll(pool[e.0], e.1.inv))
            ==> r.Fail? && r.error.MissingField?
    ensures r.Fail? && r.error.UnsupportedMode? ==>
              e.1.Block? && r.error.mode == Lower(e.1.inv.mode) && r.error.mode !in pool[e.0].supportModes
    ensures r.Fail? && r.error.MissingField? ==>
              && e.1.Block?
              && Lower(e.1.inv.mode) in pool[e.0].supportModes
              && var fs := pool[e.0].fields;
                 exists k :: 0 <= k < |fs| && fs[k] == r.error.field && fs[k] !in e.1.inv.fields
                             && forall j :: 0 <= j < k ==> fs[j] in e.1.inv.fields
  {
    var (key, value) := e;
    if IsReserved(key) then Pass
    else if key !in pool then Fail(UnknownRule(key))
    else if !value.Block? then Fail(MalformedConfig(key))
    else
      var mode := Lower(value.inv.mode);
      if mode !in pool[key].supportModes then Fail(UnsupportedMode(mode, key))
      else
        var fs := pool[key].fields;
        var k := FirstMissingIndex(fs, value.inv.fields.Keys);
        if k < |fs| then Fail(MissingField(fs[k], key)) else Pass
  }

  /** `validate_task`: the entries are checked in task order and the first
      failing check is reported. */
  function Validate(pool: Pool, task: seq<Entry>): (r: Outcome<ValidationError>)
    ensures r.Pass? <==> forall i :: 0 <= i < |task| ==> EntryOk(pool, task[i])
    ensures r.Fail? ==> !IsReserved(r.error.rule)
  {
    if task == [] then Pass
    else
      match CheckEntry(pool, task[0])
      case Fail(err) => Fail(err)
      case Pass => Validate(pool, task[1..])
  }

  /** Fail-fast: the error reported is the one for the first entry that
      violates a condition, whatever the later entries hold. */
  lemma {:induction false} FirstViolationReported(pool: Pool, task: seq<Entry>, i: nat)
    requires i < |task|
    requires forall j :: 0 <= j < i ==> EntryOk(pool, task[j])
    requires !EntryOk(pool, task[i])
    ensures Validate(pool, task) == CheckEntry(pool, task[i])
  {
    if i > 0 {
      assert EntryOk(pool, task[0]);
      FirstViolationReported(pool, task[1..], i - 1);
    }
  }

  /** Entries keyed `name` or `report` are never validated: whatever value they
      hold, validating the task is validating its rule entries alone. */
  lemma {:induction false} ReservedEntriesSkipped(pool: Pool, task: seq<Entry>)
    ensures Validate(pool, task) == Validate(pool, RuleEntries(task))
  {
    if task != [] {
      ReservedEntriesSkipped(pool, task[1..]);
      var rest := RuleEntries(task[1..]);
      if IsReserved(task[0].0) {
        assert RuleEntries(task) == rest;
        assert Validate(pool, task) == Validate(pool, task[1..]);
      } else {
        var filtered := [task[0]] + rest;
        assert RuleEntries(task) == filtered;
        assert filtered[0] == task[0] && filtered[1..] == rest;
        match CheckEntry(pool, task[0])
        case Fail(err) =>
        case Pass =>
          assert Validate(pool, filtered) == Validate(pool, rest);
      }
    }
  }

  /** Only the task's mode is lower-cased: its letter case never matters. */
  lemma ModeCaseIgnored(pool: Pool, key: string, inv: Invocation)
    ensures CheckEntry(pool, (key, Block(inv))) == CheckEntry(pool, (key, Block(inv.(mode := Lower(inv.mode)))))
  {
    LowerIdempotent(inv.mode);
  }

  /** The pool's modes are compared as written: a rule whose supported modes
      all contain an upper-case letter rejects every mode. */
  lemma UppercasePoolModeNeverMatches(pool: Pool, key: string, inv: Invocation)
    requires !IsReserved(key) && key in pool
    requires forall m :: m in pool[key].supportModes ==> exists i :: 0 <= i < |m| && IsUpper(m[i])
    ensures CheckEntry(pool, (key, Block(inv))) == Fail(UnsupportedMode(Lower(inv.mode), key))
  {
    var mode := Lower(inv.mode);
    if mode in pool[key].supportModes {
      UppercaseNeverLowered(inv.mode, mode);
    }
  }

  /** Extra provided fields never cause an error: an entry that passes still
      passes when its invocation provides more fields. */
  lemma ExtraFieldsHarmless(pool: Pool, key: string, inv: Invocation, extra: map<string, string>)
    requires CheckEntry(pool, (key, Block(inv))).Pass?
    ensures CheckEntry(pool, (key, Block(inv.(fields := inv.fields + extra)))).Pass?
  {
  }
}
