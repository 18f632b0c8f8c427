/** `TaskLoader.get_sorted_rules`: the task's rule entries, stably sorted by
    the pool's priority, lowest first. */
module Scheduling {
  import opened Wrappers
  import opened Lists
  import opened Config

  /** The key error `sorted` raises when a rule has no pool entry to take a priority from. */
  datatype ScheduleError = NoPriority(rule: string)

  /** Every entry of `s` names a rule of the pool. */
  predicate InPool(pool: Pool, s: seq<Entry>) {
    forall i :: 0 <= i < |s| ==> s[i].0 in pool
  }

  function Priority(pool: Pool, e: Entry): int
    requires e.0 in pool
  {
    pool[e.0].priority
  }

  /** Priorities never decrease along `s`. */
  predicate SortedByPriority(pool: Pool, s: seq<Entry>)
    requires InPool(pool, s)
  {
    forall i, j :: 0 <= i < j < |s| ==> Priority(pool, s[i]) <= Priority(pool, s[j])
  }

  /** The entries of `s` whose rule has priority `p`, in their order in `s`. */
  function WithPriority(pool: Pool, s: seq<Entry>, p: int): (r: seq<Entry>)
    requires InPool(pool, s)
    ensures |r| <= |s|
  {
    if s == [] then []
    else (if Priority(pool, s[0]) == p then [s[0]] else []) + WithPriority(pool, s[1..], p)
  }

  /** The entries of a priority class come from the sequence and have that priority. */
  lemma {:induction false} WithPriorityMembers(pool: Pool, s: seq<Entry>, p: int, x: Entry)
    requires InPool(pool, s)
    requires x in WithPriority(pool, s, p)
    ensures x in s && x.0 in pool && Priority(pool, x) == p
  {
    if s != [] && !(Priority(pool, s[0]) == p && x == s[0]) {
      WithPriorityMembers(pool, s[1..], p, x);
    }
  }

  /** `r` orders the entries of each priority as `s` does: what a stable sort keeps. */
  ghost predicate SameOrderPerPriority(pool: Pool, r: seq<Entry>, s: seq<Entry>)
    requires InPool(pool, r) && InPool(pool, s)
  {
    forall p :: WithPriority(pool, r, p) == WithPriority(pool, s, p)
  }

  /** Prepending one entry adds it to its own priority class only. */
  lemma WithPriorityCons(pool: Pool, x: Entry, s: seq<Entry>, p: int)
    requires x.0 in pool && InPool(pool, s)
    ensures InPool(pool, [x] + s)
    ensures WithPriority(pool, [x] + s, p) == (if Priority(pool, x) == p then [x] else []) + WithPriority(pool, s, p)
  {
    assert ([x] + s)[0] == x && ([x] + s)[1..] == s;
  }

  /** Inserts `e` before the first entry of no smaller priority, so that `e`
      stays ahead of the equal-priority entries that followed it. */
  function Insert(pool: Pool, e: Entry, s: seq<Entry>): (r: seq<Entry>)
    requires e.0 in pool && InPool(pool, s)
    ensures InPool(pool, r)
    ensures multiset(r) == multiset(s) + multiset{e}
  {
    if s == [] then [e]
    else if Priority(pool, e) <= Priority(pool, s[0]) then
      WithPriorityCons(pool, e, s, 0);
      [e] + s
    else
      var rest := Insert(pool, e, s[1..]);
      WithPriorityCons(pool, s[0], rest, 0);
      assert s == [s[0]] + s[1..];
      [s[0]] + rest
  }

  /** An entry of no greater priority than everything in a sorted sequence
      can be put in front of it. */
  lemma SortedCons(pool: Pool, x: Entry, s: seq<Entry>)
    requires x.0 in pool && InPool(pool, s) && SortedByPriority(pool, s)
    requires forall y :: y in s ==> Priority(pool, x) <= Priority(pool, y)
    ensures InPool(pool, [x] + s) && SortedByPriority(pool, [x] + s)
  {
    var r := [x] + s;
    forall i, j | 0 <= i < j < |r|
      ensures Priority(pool, r[i]) <= Priority(pool, r[j])
    {
      assert r[j] == s[j - 1];
      if i > 0 {
        assert r[i] == s[i - 1];
      }
    }
  }

  /** The entries following the head of a sorted sequence have no smaller priority than it. */
  lemma SortedTailBounded(pool: Pool, s: seq<Entry>, x: Entry)
    requires InPool(pool, s) && SortedByPriority(pool, s) && s != []
    requires x in multiset(s[1..])
    ensures Priority(pool, s[0]) <= Priority(pool, x)
  {
    var k :| 0 <= k < |s[1..]| && s[1..][k] == x;
    assert s[k + 1] == x;
  }

  /** Insertion into a sorted sequence keeps it sorted. */
  lemma {:induction false} InsertKeepsSorted(pool: Pool, e: Entry, s: seq<Entry>)
    requires e.0 in pool && InPool(pool, s) && SortedByPriority(pool, s)
    ensures SortedByPriority(pool, Insert(pool, e, s))
  {
    if s == [] {
    } else if Priority(pool, e) <= Priority(pool, s[0]) {
      forall y | y in s ensures Priority(pool, e) <= Priority(pool, y) {
        SortedHeadIsMinimal(pool, s, y);
      }
      SortedCons(pool, e, s);
    } else {
      var rest := Insert(pool, e, s[1..]);
      InsertKeepsSorted(pool, e, s[1..]);
      forall y | y in rest
        ensures Priority(pool, s[0]) <= Priority(pool, y)
      {
        assert y in multiset(rest);
        if y != e {
          SortedTailBounded(pool, s, y);
        }
      }
      SortedCons(pool, s[0], rest);
    }
  }

  /** Within its own priority, `e` lands ahead of every entry already in `s`;
      other priority classes are untouched. */
  lemma {:induction false} InsertKeepsOrder(pool: Pool, e: Entry, s: seq<Entry>, p: int)
    requires e.0 in pool && InPool(pool, s)
    ensures WithPriority(pool, Insert(pool, e, s), p)
         == (if Priority(pool, e) == p then [e] else []) + WithPriority(pool, s, p)
  {
    if s == [] {
      WithPriorityCons(pool, e, s, p);
      assert Insert(pool, e, s) == [e] + s;
    } else if Priority(pool, e) <= Priority(pool, s[0]) {
      WithPriorityCons(pool, e, s, p);
    } else {
      var rest := Insert(pool, e, s[1..]);
      assert Insert(pool, e, s) == [s[0]] + rest;
      InsertKeepsOrder(pool, e, s[1..], p);
      WithPriorityCons(pool, s[0], rest, p);
      WithPriorityCons(pool, s[0], s[1..], p);
      assert s == [s[0]] + s[1..];
      // `e` and `s[0]` have different priorities, so at most one joins class `p`.
      if Priority(pool, e) == p {
        assert WithPriority(pool, s, p) == WithPriority(pool, s[1..], p);
      } else if Priority(pool, s[0]) == p {
        assert WithPriority(pool, rest, p) == WithPriority(pool, s[1..], p);
      }
    }
  }

  /** Python's stable `sorted` keyed by pool priority, as an insertion sort. */
  function SortByPriority(pool: Pool, s: seq<Entry>): (r: seq<Entry>)
    requires InPool(pool, s)
    ensures InPool(pool, r)
    ensures multiset(r) == multiset(s)
    ensures SortedByPriority(pool, r)
    ensures SameOrderPerPriority(pool, r, s)
  {
    if s == [] then []
    else
      var rest := SortByPriority(pool, s[1..]);
      assert s == [s[0]] + s[1..];
      InsertKeepsSorted(pool, s[0], rest);
      forall p
        ensures WithPriority(pool, Insert(pool, s[0], rest), p) == WithPriority(pool, s, p)
      {
        InsertKeepsOrder(pool, s[0], rest, p);
      }
      Insert(pool, s[0], rest)
  }

  /** `get_sorted_rules`: drop `name` and `report`, then sort by priority. A
      rule missing from the pool makes the key lookup fail; the key function is
      applied in task order, so the first such rule is the one reported. */
  function GetSortedRules(pool: Pool, task: TaskInfo): (r: Result<seq<Entry>, ScheduleError>)
    ensures r.Success? <==> InPool(pool, RuleEntries(task))
    ensures r.Success? ==>
              && InPool(pool, r.value)
              && multiset(r.value) == multiset(RuleEntries(task))
              && SortedByPriority(pool, r.value)
              && SameOrderPerPriority(pool, r.value, RuleEntries(task))
    ensures r.Failure? ==>
              var rules := RuleEntries(task);
              exists k :: 0 <= k < |rules| && rules[k].0 == r.error.rule && rules[k].0 !in pool
                          && forall j :: 0 <= j < k ==> rules[j].0 in pool
  {
    var rules := RuleEntries(task);
    var k := FirstMissingIndex(Keys(rules), pool.Keys);
    if k < |rules| then Failure(NoPriority(rules[k].0))
    else Success(SortByPriority(pool, rules))
  }

  /** A sorted sequence starts with an entry of its smallest priority. */
  lemma SortedHeadIsMinimal(pool: Pool, s: seq<Entry>, x: Entry)
    requires InPool(pool, s) && SortedByPriority(pool, s)
    requires x in s
    ensures Priority(pool, s[0]) <= Priority(pool, x)
  {
    var k :| 0 <= k < |s| && s[k] == x;
    if k > 0 {
      assert Priority(pool, s[0]) <= Priority(pool, s[k]);
    }
  }

  /** A non-empty sequence has entries of its head's priority. */
  lemma HeadPriorityPresent(pool: Pool, s: seq<Entry>)
    requires InPool(pool, s)
    ensures s != [] ==> WithPriority(pool, s, Priority(pool, s[0])) != []
  {
  }

  /** Two sorted sequences that order every priority class alike start with
      the same entry: each head is the first entry of the smallest priority. */
  lemma SameHeads(pool: Pool, a: seq<Entry>, b: seq<Entry>)
    requires InPool(pool, a) && InPool(pool, b)
    requires SortedByPriority(pool, a) && SortedByPriority(pool, b)
    requires SameOrderPerPriority(pool, a, b)
    requires a != [] && b != []
    ensures a[0] == b[0]
  {
    var pa, pb := Priority(pool, a[0]), Priority(pool, b[0]);
    var wa := WithPriority(pool, a, pa);
    assert wa[0] == a[0];
    assert wa == WithPriority(pool, b, pa);
    WithPriorityMembers(pool, b, pa, wa[0]);
    SortedHeadIsMinimal(pool, b, wa[0]);
    var wb := WithPriority(pool, b, pb);
    assert wb[0] == b[0];
    assert wb == WithPriority(pool, a, pb);
    WithPriorityMembers(pool, a, pb, wb[0]);
    SortedHeadIsMinimal(pool, a, wb[0]);
    assert pa == pb;
  }

  /** Dropping a common head keeps every priority class ordered alike. */
  lemma SameOrderOfTails(pool: Pool, a: seq<Entry>, b: seq<Entry>)
    requires InPool(pool, a) && InPool(pool, b)
    requires SameOrderPerPriority(pool, a, b)
    requires a != [] && b != [] && a[0] == b[0]
    ensures InPool(pool, a[1..]) && InPool(pool, b[1..])
    ensures SameOrderPerPriority(pool, a[1..], b[1..])
  {
    forall p
      ensures WithPriority(pool, a[1..], p) == WithPriority(pool, b[1..], p)
    {
      var head := if Priority(pool, a[0]) == p then [a[0]] else [];
      assert WithPriority(pool, a, p) == head + WithPriority(pool, a[1..], p);
      assert WithPriority(pool, b, p) == head + WithPriority(pool, b[1..], p);
      assert (head + WithPriority(pool, a[1..], p))[|head|..] == WithPriority(pool, a[1..], p);
      assert (head + WithPriority(pool, b[1..], p))[|head|..] == WithPriority(pool, b[1..], p);
    }
  }

  /** A stable sort by priority has exactly one possible result: two sorted
      sequences that order every priority class alike are equal. */
  lemma {:induction false} StableSortUnique(pool: Pool, a: seq<Entry>, b: seq<Entry>)
    requires InPool(pool, a) && InPool(pool, b)
    requires SortedByPriority(pool, a) && SortedByPriority(pool, b)
    requires SameOrderPerPriority(pool, a, b)
    ensures a == b
  {
    HeadPriorityPresent(pool, a);
    HeadPriorityPresent(pool, b);
    if a == [] || b == [] {
    } else {
      SameHeads(pool, a, b);
      SameOrderOfTails(pool, a, b);
      StableSortUnique(pool, a[1..], b[1..]);
      assert a == [a[0]] + a[1..];
      assert b == [b[0]] + b[1..];
    }
  }

  /** The schedule is fully determined by the task and the pool: any ordering
      of the rule entries that is sorted by priority and keeps task order
      within each priority is the schedule. */
  lemma ScheduleIsTheStableSort(pool: Pool, task: TaskInfo, s: seq<Entry>)
    requires GetSortedRules(pool, task).Success?
    requires InPool(pool, s) && SortedByPriority(pool, s)
    requires SameOrderPerPriority(pool, s, RuleEntries(task))
    ensures s == GetSortedRules(pool, task).value
  {
    var r := GetSortedRules(pool, task).value;
    StableSortUnique(pool, s, r);
  }
}
