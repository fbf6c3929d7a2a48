/** The filter bar's store (src/store/useFiltersStore.ts): the current
    filters and the board's view mode. Writing the view mode to local
    storage is not modelled. */
module FiltersStore {
  import opened Types
  import opened Seqs
  import opened Text
  import opened TaskUtils

  /** `initialFilters`: nothing selected and an empty query. */
  const InitialFilters: Filters := Filters([], [], [], "")

  /** A `Partial<Filters>`: `None` for an absent key. */
  datatype FiltersPatch = FiltersPatch(
    assignees: Option<seq<string>>,
    tags: Option<seq<string>>,
    priorities: Option<seq<Priority>>,
    query: Option<string>)

  /** `{ ...filters, ...patch }`. */
  function MergeFilters(f: Filters, p: FiltersPatch): Filters
  {
    Filters(if p.assignees.Some? then p.assignees.value else f.assignees,
            if p.tags.Some? then p.tags.value else f.tags,
            if p.priorities.Some? then p.priorities.value else f.priorities,
            if p.query.Some? then p.query.value else f.query)
  }

  function IsNot<T(==)>(x: T): T -> bool
  {
    y => y != x
  }

  /** The list after a toggle: without every occurrence of a value that is
      present, or with an absent value appended. */
  function Toggled<T(==,!new)>(s: seq<T>, x: T): seq<T>
  {
    if x in s then Filter(IsNot(x), s) else s + [x]
  }

  class FilterStore {
    var filters: Filters
    var viewMode: ViewMode

    constructor()
      ensures filters == InitialFilters && viewMode == Kanban
    {
      filters := InitialFilters;
      viewMode := Kanban;
    }

    method SetFilters(patch: FiltersPatch)
      modifies this
      ensures filters == MergeFilters(old(filters), patch) && viewMode == old(viewMode)
    {
      filters := Filters(if patch.assignees.Some? then patch.assignees.value else filters.assignees,
                         if patch.tags.Some? then patch.tags.value else filters.tags,
                         if patch.priorities.Some? then patch.priorities.value else filters.priorities,
                         if patch.query.Some? then patch.query.value else filters.query);
    }

    method ResetFilters()
      modifies this
      ensures filters == InitialFilters && viewMode == old(viewMode)
    {
      filters := InitialFilters;
    }

    method SetViewMode(mode: ViewMode)
      modifies this
      ensures viewMode == mode && filters == old(filters)
    {
      viewMode := mode;
    }

    method ToggleTag(tag: string)
      modifies this
      ensures filters == old(filters).(tags := Toggled(old(filters).tags, tag))
      ensures viewMode == old(viewMode)
    {
      var tags := if tag in filters.tags then Filter(IsNot(tag), filters.tags) else filters.tags + [tag];
      filters := filters.(tags := tags);
    }

    method TogglePriority(priority: Priority)
      modifies this
      ensures filters == old(filters).(priorities := Toggled(old(filters).priorities, priority))
      ensures viewMode == old(viewMode)
    {
      var priorities := if priority in filters.priorities then Filter(IsNot(priority), filters.priorities)
        else filters.priorities + [priority];
      filters := filters.(priorities := priorities);
    }

    method ToggleAssignee(userId: string)
      modifies this
      ensures filters == old(filters).(assignees := Toggled(old(filters).assignees, userId))
      ensures viewMode == old(viewMode)
    {
      var assignees := if userId in filters.assignees then Filter(IsNot(userId), filters.assignees)
        else filters.assignees + [userId];
      filters := filters.(assignees := assignees);
    }
  }

  // ---------------------------------------------------------------------
  // Properties

  /** The initial (and reset) filters hide nothing. */
  lemma InitialFiltersShowAll(tasks: seq<Task>)
    ensures ApplyFilters(tasks, InitialFilters) == tasks
  {
    ApplyFiltersNoCriteria(tasks, InitialFilters);
  }

  /** A merge overwrites exactly the supplied keys: an empty patch changes
      nothing, a full patch replaces everything, and a later patch wins. */
  lemma MergeFiltersLaws(f: Filters, p: FiltersPatch, q: FiltersPatch)
    ensures MergeFilters(f, FiltersPatch(None, None, None, None)) == f
    ensures forall g: Filters ::
      MergeFilters(f, FiltersPatch(Some(g.assignees), Some(g.tags), Some(g.priorities), Some(g.query))) == g
    ensures MergeFilters(MergeFilters(f, p), q) == MergeFilters(f, FiltersPatch(
      if q.assignees.Some? then q.assignees else p.assignees,
      if q.tags.Some? then q.tags else p.tags,
      if q.priorities.Some? then q.priorities else p.priorities,
      if q.query.Some? then q.query else p.query))
    ensures p.assignees.None? ==> MergeFilters(f, p).assignees == f.assignees
    ensures p.tags.None? ==> MergeFilters(f, p).tags == f.tags
    ensures p.priorities.None? ==> MergeFilters(f, p).priorities == f.priorities
    ensures p.query.None? ==> MergeFilters(f, p).query == f.query
  {
  }

  /** Toggling removes every occurrence of a present value, keeping the
      others in order, and appends an absent one at the end. */
  lemma ToggledSpec<T(!new)>(s: seq<T>, x: T)
    ensures x in s ==>
      x !in Toggled(s, x) && SubsequenceOf(Toggled(s, x), s)
      && forall y :: y in Toggled(s, x) <==> y in s && y != x
    ensures x !in s ==> Toggled(s, x) == s + [x]
    ensures x in Toggled(s, x) <==> x !in s
  {
    FilterIsSubsequence(IsNot(x), s);
  }

  /** Toggling keeps a list free of duplicates. */
  lemma ToggledNoDuplicates<T(!new)>(s: seq<T>, x: T)
    requires NoDuplicates(s)
    ensures NoDuplicates(Toggled(s, x))
  {
    if x in s {
      FilterNoDuplicates(IsNot(x), s);
    }
  }

  lemma {:induction false} FilterNoDuplicates<T(!new)>(p: T -> bool, s: seq<T>)
    requires NoDuplicates(s)
    ensures NoDuplicates(Filter(p, s))
    decreases |s|
  {
    if s != [] {
      assert NoDuplicates(s[1..]) by {
        forall i, j | 0 <= i < j < |s[1..]| ensures s[1..][i] != s[1..][j] {
          assert s[1..][i] == s[i + 1] && s[1..][j] == s[j + 1];
        }
      }
      FilterNoDuplicates(p, s[1..]);
      var rest := Filter(p, s[1..]);
      assert s[0] !in s[1..] by {
        forall k | 0 <= k < |s[1..]| ensures s[1..][k] != s[0] {
          assert s[1..][k] == s[k + 1];
        }
      }
      assert s[0] !in rest;
      var r := Filter(p, s);
      if p(s[0]) {
        assert r == [s[0]] + rest;
        forall i, j | 0 <= i < j < |r| ensures r[i] != r[j] {
          assert r[j] == rest[j - 1];
          if i > 0 {
            assert r[i] == rest[i - 1];
          }
        }
      }
    }
  }

  /** On a list without duplicates, toggling a value twice gives the list
      back exactly when the value was absent or was the last element: a
      present value comes back at the end. */
  lemma ToggleTwice<T(!new)>(s: seq<T>, x: T)
    requires NoDuplicates(s)
    ensures Toggled(Toggled(s, x), x) == s <==> x !in s || s[|s| - 1] == x
    ensures x in s ==> Toggled(Toggled(s, x), x) == Filter(IsNot(x), s) + [x]
  {
    if x !in s {
      ToggleTwiceAbsent(s, x);
    } else {
      var f := Filter(IsNot(x), s);
      assert x !in f;
      assert Toggled(s, x) == f;
      assert Toggled(f, x) == f + [x];
      if s[|s| - 1] == x {
        DropLast(s, x);
      } else {
        var twice := f + [x];
        assert twice[|twice| - 1] == x;
      }
    }
  }

  lemma ToggleTwiceAbsent<T(!new)>(s: seq<T>, x: T)
    requires x !in s
    ensures Toggled(Toggled(s, x), x) == s
  {
    assert x in s + [x];
    FilterAppend(IsNot(x), s, [x]);
    FilterAll(IsNot(x), s);
    FilterCons(IsNot(x), x, []);
    assert [x] + [] == [x];
  }

  /** Removing the last element, which occurs nowhere else, leaves the rest. */
  lemma DropLast<T(!new)>(s: seq<T>, x: T)
    requires NoDuplicates(s) && |s| > 0 && s[|s| - 1] == x
    ensures Filter(IsNot(x), s) + [x] == s
  {
    var n := |s| - 1;
    assert s == s[..n] + [x];
    assert x !in s[..n] by {
      forall k | 0 <= k < n ensures s[..n][k] != x {
        assert s[..n][k] == s[k];
      }
    }
    var p := IsNot(x);
    FilterAppend(p, s[..n], [x]);
    FilterAll(p, s[..n]);
    FilterCons(p, x, []);
    assert [x] + [] == [x];
    assert Filter(p, [x]) == [];
    assert Filter(p, s) == Filter(p, s[..n]) + Filter(p, [x]);
    assert Filter(p, s) == s[..n];
  }
}
