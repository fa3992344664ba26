/**
 * The filtered list walker of client/uftrace_dynamic_client/ui.py: a sorted
 * list of function names, a filter, a selection set and a focus index, with
 * the nearest-match navigation and the refocus rule run after every change.
 */
module Navigation {
  import opened Wrappers
  import opened Ordering
  import opened FilterLanguage
  import opened Communication

  class FilterFunctionWalker {
    /** The dict of functions shown, shared with its owner (the communicator's cache). */
    const functionList: FunctionTable
    const filter: Filter
    /** The names of `functionList` sorted, as they were at construction. */
    const names: seq<string>
    var selected: set<string>
    var focus: Option<nat>
    /** Whether an `on_change` callback was registered. */
    const hasOnChange: bool
    /** How many times `on_change` has been invoked. */
    ghost var notifications: nat

    /** Every listed name is a key of the dict. */
    ghost predicate Known()
      reads functionList
    {
      && functionList.Valid()
      && (forall i :: 0 <= i < |names| ==> names[i] in functionList.active)
    }

    ghost predicate Valid()
      reads this, functionList
    {
      && Known()
      && (focus.Some? ==> focus.value < |names|)
    }

    /** The filter applied to the `i`-th name, its status and its selection. */
    predicate Matches(i: nat)
      requires Known() && i < |names|
      reads this`selected, functionList, filter
    {
      filter.Admits(names[i], Some(functionList.active[names[i]]), Some(names[i] in selected))
    }

    predicate NoMatch()
      requires Known()
      reads this`selected, functionList, filter
    {
      forall i :: 0 <= i < |names| ==> !Matches(i)
    }

    /** The least matching index at or after `start`. */
    function FirstMatchFrom(start: nat): (r: Option<nat>)
      requires Known()
      reads this`selected, functionList, filter
      ensures r.Some? ==> start <= r.value < |names| && Matches(r.value)
      ensures r.Some? ==> forall j :: start <= j < r.value ==> !Matches(j)
      ensures r.None? ==> forall j :: start <= j < |names| ==> !Matches(j)
      decreases |names| - start
    {
      if start >= |names| then None
      else if Matches(start) then Some(start)
      else FirstMatchFrom(start + 1)
    }

    /** The greatest matching index at or before `start`. */
    function LastMatchUpTo(start: int): (r: Option<nat>)
      requires Known() && start < |names|
      reads this`selected, functionList, filter
      ensures r.Some? ==> r.value <= start && Matches(r.value)
      ensures r.Some? ==> forall j :: r.value < j <= start ==> !Matches(j)
      ensures r.None? ==> forall j :: 0 <= j <= start ==> !Matches(j)
      decreases start + 1
    {
      if start < 0 then None
      else if Matches(start) then Some(start)
      else LastMatchUpTo(start - 1)
    }

    /**
     * The focus `notify_change` computes from `f`: the first match when there
     * was no focus; otherwise the nearest match at or before `f`, and only if
     * there is none, the nearest match after it.
     */
    function Refocused(f: Option<nat>): (r: Option<nat>)
      requires Known() && (f.Some? ==> f.value < |names|)
      reads this`selected, functionList, filter
      ensures r.None? <==> NoMatch()
      ensures r.Some? ==> r.value < |names| && Matches(r.value)
      ensures f.Some? && Matches(f.value) ==> r == f
    {
      if f.None? then FirstMatchFrom(0)
      else
        var back := LastMatchUpTo(f.value);
        if back.Some? then back else FirstMatchFrom(f.value)
    }

    /**
     * The new focus is the nearest match: the first one when there was no
     * focus, the nearest at or before the old focus, and only when there is
     * none of those, the first one after it.
     */
    lemma RefocusedIsNearest(f: Option<nat>)
      requires Known() && (f.Some? ==> f.value < |names|)
      ensures var r := Refocused(f);
        && (f.None? && r.Some? ==> forall j :: 0 <= j < r.value ==> !Matches(j))
        && (f.Some? && r.Some? && r.value <= f.value ==> forall j :: r.value < j <= f.value ==> !Matches(j))
        && (f.Some? && r.Some? && r.value > f.value ==> forall j :: 0 <= j < r.value ==> !Matches(j))
    {
    }

    /** What `notify_change` establishes: the focus is on a match, and is absent only when nothing matches. */
    ghost predicate Settled()
      reads this, functionList, filter
    {
      && Valid()
      && (focus.None? <==> NoMatch())
      && (focus.Some? ==> Matches(focus.value))
    }

    /** The number of matching indices below `k`. */
    function CountMatches(k: nat): (c: nat)
      requires Known() && k <= |names|
      reads this`selected, functionList, filter
      ensures c <= k
    {
      if k == 0 then 0 else CountMatches(k - 1) + (if Matches(k - 1) then 1 else 0)
    }

    /** No match is counted exactly when none of the first `k` names matches. */
    lemma {:induction false} CountZeroIff(k: nat)
      requires Known() && k <= |names|
      ensures CountMatches(k) == 0 <==> forall j :: 0 <= j < k ==> !Matches(j)
    {
      if k > 0 {
        CountZeroIff(k - 1);
      }
    }

    lemma {:induction false} CountMonotone(k: nat, m: nat)
      requires Known() && k <= m <= |names|
      ensures CountMatches(k) <= CountMatches(m)
      decreases m - k
    {
      if k < m {
        CountMonotone(k, m - 1);
      }
    }

    /** A matching index has a rank between one and the number of matches. */
    lemma RankBounds(f: nat)
      requires Known() && f < |names| && Matches(f)
      ensures 1 <= CountMatches(f + 1) <= CountMatches(|names|)
    {
      CountMonotone(f + 1, |names|);
    }

    /** The names of the dict the filter admits with the given selection flag. */
    function Passing(sel: bool): set<string>
      requires functionList.Valid()
      reads functionList, filter
    {
      set f | f in functionList.active && filter.Admits(f, Some(functionList.active[f]), Some(sel))
    }

    constructor (functionList: FunctionTable, fil: Filter?, onChange: bool, re: RegexEngine)
      requires functionList.Valid()
      ensures this.functionList == functionList && hasOnChange == onChange
      ensures fil != null ==> filter == fil
      ensures fil == null ==> fresh(filter) && filter.State() == Unfiltered && filter.re == re
      ensures names == Sort(functionList.keys)
      ensures Sorted(names) && multiset(names) == multiset(functionList.keys)
      ensures selected == {} && notifications == 0
      ensures Valid() && focus == FirstMatchFrom(0)
    {
      var keys := functionList.keys;
      SortSorted(keys);
      SortedKeysKnown(keys, functionList.active);
      this.functionList := functionList;
      if fil == null {
        filter := new Filter(re);
      } else {
        filter := fil;
      }
      names := Sort(keys);
      selected := {};
      hasOnChange := onChange;
      notifications := 0;
      focus := None;
      new;
      focus := GetFirstMatching(0, false);
    }

    /** `__get_first_matching(start, reverse)` */
    method GetFirstMatching(start: int, reverse: bool) returns (r: Option<nat>)
      requires Valid()
      requires if reverse then -1 <= start < |names| else start >= 0
      ensures r == if reverse then LastMatchUpTo(start) else FirstMatchFrom(start)
    {
      if reverse {
        var i := start;
        while i >= 0
          invariant -1 <= i <= start
          invariant LastMatchUpTo(start) == LastMatchUpTo(i)
          decreases i
        {
          if Matches(i) {
            return Some(i);
          }
          i := i - 1;
        }
        return None;
      } else {
        var i: nat := start;
        while i < |names|
          invariant start <= i
          invariant FirstMatchFrom(start) == FirstMatchFrom(i)
          decreases |names| - i
        {
          if Matches(i) {
            return Some(i);
          }
          i := i + 1;
        }
        return None;
      }
    }

    /** `next_position(p)`: the least match after `p`; `None` is the IndexError. */
    method NextPosition(p: nat) returns (r: Option<nat>)
      requires Valid()
      ensures r.Some? ==> p < r.value < |names| && Matches(r.value)
      ensures r.Some? ==> forall j :: p < j < r.value ==> !Matches(j)
      ensures r.None? ==> forall j :: p < j < |names| ==> !Matches(j)
    {
      r := GetFirstMatching(p + 1, false);
    }

    /**
     * `prev_position(p)`: the greatest match before `p`; `None` is the
     * IndexError, raised also when `p - 1` is past the end of the list.
     */
    method PrevPosition(p: nat) returns (r: Option<nat>)
      requires Valid()
      ensures p > |names| ==> r.None?
      ensures r.Some? ==> r.value < p && Matches(r.value)
      ensures r.Some? ==> forall j :: r.value < j < p ==> !Matches(j)
      ensures r.None? && p <= |names| ==> forall j :: 0 <= j < p ==> !Matches(j)
    {
      if p - 1 >= |names| {
        return None;
      }
      r := GetFirstMatching(p - 1, true);
    }

    /** The focus search at the head of `notify_change()`. */
    method Refocus() returns (next: Option<nat>)
      requires Valid()
      ensures next == Refocused(focus)
    {
      if focus.None? {
        next := GetFirstMatching(0, false);
      } else {
        var current := focus.value;
        next := GetFirstMatching(current, true);
        if next.None? {
          next := GetFirstMatching(current, false);
        }
      }
    }

    /** `notify_change()` */
    method NotifyChange()
      requires Valid()
      modifies this`focus, this`notifications
      ensures Valid() && Settled()
      ensures focus == Refocused(old(focus))
      ensures notifications == old(notifications) + (if hasOnChange then 1 else 0)
    {
      focus := Refocus();
      if hasOnChange {
        notifications := notifications + 1;
      }
    }

    /** `set_focus(p)` */
    method SetFocus(p: nat)
      requires Valid() && p < |names|
      modifies this
      ensures Valid() && Settled()
      ensures focus == Refocused(Some(p))
      ensures selected == old(selected)
      ensures notifications == old(notifications) + (if hasOnChange then 1 else 0)
    {
      focus := Some(p);
      NotifyChange();
    }

    /** The `position` property: the rank of the focus among the matches, and their number. */
    method Position() returns (pos: Option<nat>, total: nat)
      requires Valid()
      ensures total == CountMatches(|names|)
      ensures total == 0 <==> NoMatch()
      ensures pos == if focus.Some? && Matches(focus.value) then Some(CountMatches(focus.value + 1)) else None
      ensures pos.Some? ==> 1 <= pos.value <= total
      ensures Settled() ==> (pos.None? <==> total == 0)
    {
      total := 0;
      pos := None;
      var i := 0;
      while i < |names|
        invariant 0 <= i <= |names|
        invariant total == CountMatches(i)
        invariant pos.Some? <==> focus.Some? && focus.value < i && Matches(focus.value)
        invariant pos.Some? ==> pos.value == CountMatches(focus.value + 1)
      {
        if Matches(i) {
          total := total + 1;
          if focus == Some(i) {
            pos := Some(total);
          }
        }
        i := i + 1;
      }
      CountZeroIff(|names|);
      if pos.Some? {
        RankBounds(focus.value);
      }
    }

    /** `__on_function_select(name)`: flip `name`'s membership, then `notify_change()`. */
    method OnFunctionSelect(name: string)
      requires Valid()
      modifies this
      ensures Valid() && Settled()
      ensures selected == if name in old(selected) then old(selected) - {name} else old(selected) + {name}
      ensures focus == Refocused(old(focus))
      ensures notifications == old(notifications) + (if hasOnChange then 1 else 0)
    {
      if name in selected {
        selected := selected - {name};
      } else {
        selected := selected + {name};
      }
      NotifyChange();
    }

    /**
     * `select_all()`: add every name of the dict the filter admits when told
     * the name is not selected, then `notify_change()`.
     */
    method SelectAll()
      requires Valid()
      modifies this
      ensures Valid() && Settled()
      ensures selected == old(selected) + Passing(false)
      ensures focus == Refocused(old(focus))
      ensures notifications == old(notifications) + (if hasOnChange then 1 else 0)
    {
      var keys := functionList.keys;
      var i := 0;
      while i < |keys|
        invariant 0 <= i <= |keys|
        invariant Valid() && focus == old(focus) && notifications == old(notifications)
        invariant forall f :: f in selected <==> f in old(selected) || (f in keys[..i] && f in Passing(false))
      {
        var f := keys[i];
        assert keys[..i + 1] == keys[..i] + [f];
        if filter.Admits(f, Some(functionList.active[f]), Some(false)) {
          selected := selected + {f};
        }
        i := i + 1;
      }
      assert keys[..i] == keys;
      assert selected == old(selected) + Passing(false);
      NotifyChange();
    }

    /**
     * `clear_selection()`: remove every name of the dict the filter admits
     * when told the name is selected, then `notify_change()`.
     */
    method ClearSelection()
      requires Valid()
      modifies this
      ensures Valid() && Settled()
      ensures selected == old(selected) - Passing(true)
      ensures focus == Refocused(old(focus))
      ensures notifications == old(notifications) + (if hasOnChange then 1 else 0)
    {
      var keys := functionList.keys;
      var i := 0;
      while i < |keys|
        invariant 0 <= i <= |keys|
        invariant Valid() && focus == old(focus) && notifications == old(notifications)
        invariant forall f :: f in selected <==> f in old(selected) && !(f in keys[..i] && f in Passing(true))
      {
        var f := keys[i];
        assert keys[..i + 1] == keys[..i] + [f];
        if filter.Admits(f, Some(functionList.active[f]), Some(true)) {
          selected := selected - {f};
        }
        i := i + 1;
      }
      assert keys[..i] == keys;
      assert selected == old(selected) - Passing(true);
      NotifyChange();
    }
  }

  lemma SortedKeysKnown(keys: seq<string>, active: map<string, bool>)
    requires Dict(keys, active).Valid()
    ensures forall i :: 0 <= i < |Sort(keys)| ==> Sort(keys)[i] in active
  {
    SortSorted(keys);
    forall i | 0 <= i < |Sort(keys)| ensures Sort(keys)[i] in active {
      var x := Sort(keys)[i];
      assert x in multiset(Sort(keys));
      assert x in multiset(keys);
    }
  }

  /** Under a `selected:` filter, `select_all` has nothing to add. */
  lemma SelectAllUnderSelectedFilter(w: FilterFunctionWalker)
    requires w.functionList.Valid() && w.filter.selection == Some(Selected)
    ensures w.Passing(false) == {}
  {
  }

  /**
   * The walker's names stay keys of its dict as long as the dict only grows,
   * which is all the communicator ever does to a cache object it holds.
   */
  twostate lemma NamesStayKnown(w: FilterFunctionWalker)
    requires old(w.Valid())
    requires w.functionList.Valid()
    requires old(w.focus) == w.focus
    requires old(w.functionList.active.Keys) <= w.functionList.active.Keys
    ensures w.Valid()
  {
  }
}
