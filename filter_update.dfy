/**
 * The filter-value update rule shared by the project-issues header and the
 * module sidebar. The list it edits is the store's own array for that
 * filter key, changed in place with `push` and `splice`; the edited list is
 * then forwarded to the store's `updateFilters`.
 */
module FilterUpdate {
  import opened Common
  import opened Seqs

  /** The value a filter control reports: several values, or a single one. */
  datatype FilterValue = Many(values: seq<string>) | One(value: string)

  /**
   * `values.forEach((val) => { if (!list.includes(val)) list.push(val); })`:
   * each value, in order, is appended unless the list (as grown so far)
   * already holds it.
   */
  function AddMissing(xs: seq<string>, values: seq<string>): (r: seq<string>)
    ensures |xs| <= |r| <= |xs| + |values|
    ensures r[..|xs|] == xs
    decreases |values|
  {
    if values == [] then xs
    else
      var before := AddMissing(xs, values[..|values| - 1]);
      var v := values[|values| - 1];
      if v in before then before
      else
        assert (before + [v])[..|xs|] == before[..|xs|];
        before + [v]
  }

  /** JavaScript `indexOf`: the first index holding `v`, or -1. */
  function IndexOf(xs: seq<string>, v: string): (i: int)
    ensures -1 <= i < |xs|
    ensures i == -1 <==> v !in xs
    ensures 0 <= i ==> xs[i] == v && v !in xs[..i]
  {
    if xs == [] then -1
    else if xs[0] == v then 0
    else
      var j := IndexOf(xs[1..], v);
      assert j >= 0 ==> xs[1..][..j] == xs[1..j + 1];
      if j == -1 then -1 else j + 1
  }

  /**
   * The scalar rule: a value already present loses its first occurrence
   * (`splice(indexOf(value), 1)`), an absent value is pushed.
   */
  function ToggleFirst(xs: seq<string>, v: string): (r: seq<string>)
    ensures |r| == if v in xs then |xs| - 1 else |xs| + 1
    ensures v in r <==> multiset(xs)[v] != 1
    ensures forall u :: u != v ==> (u in r <==> u in xs)
  {
    var i := IndexOf(xs, v);
    if i >= 0 then
      assert xs == xs[..i] + [xs[i]] + xs[i + 1..];
      assert multiset(xs) == multiset(xs[..i] + xs[i + 1..]) + multiset{v};
      xs[..i] + xs[i + 1..]
    else xs + [v]
  }

  /** The whole rule: add every missing value of an array, toggle a scalar. */
  function Applied(xs: seq<string>, value: FilterValue): (r: seq<string>)
    ensures value.Many? ==> |xs| <= |r| && r[..|xs|] == xs && forall u :: u in r <==> u in xs || u in value.values
    ensures value.One? ==> (value.value in r <==> multiset(xs)[value.value] != 1)
    ensures value.One? ==> forall u :: u != value.value ==> (u in r <==> u in xs)
  {
    match value
    case Many(values) =>
      AddMissingSpec(xs, values);
      AddMissing(xs, values)
    case One(v) => ToggleFirst(xs, v)
  }

  /** `xs` has no value twice. */
  predicate NoDuplicates(xs: seq<string>) {
    forall i, j :: 0 <= i < j < |xs| ==> xs[i] != xs[j]
  }

  /**
   * Adding an array of values keeps the old entries as a prefix, leaves
   * every given value present, adds nothing else, and never adds a value
   * that was present already or adds one twice.
   */
  lemma {:induction false} AddMissingSpec(xs: seq<string>, values: seq<string>)
    ensures var r := AddMissing(xs, values);
      && |xs| <= |r| && r[..|xs|] == xs
      && (forall v :: v in values ==> v in r)
      && (forall v :: v in r <==> v in xs || v in values)
      && (forall k :: |xs| <= k < |r| ==> r[k] !in xs)
      && NoDuplicates(r[|xs|..])
    decreases |values|
  {
    if values != [] {
      var init := values[..|values| - 1];
      var v := values[|values| - 1];
      AddMissingSpec(xs, init);
      var before := AddMissing(xs, init);
      assert values == init + [v];
      var r := AddMissing(xs, values);
      if v !in before {
        assert r == before + [v];
        assert r[|xs|..] == before[|xs|..] + [v];
        assert forall u :: u in before[|xs|..] ==> u in before;
      }
    }
  }

  /** The values appended by an array update come in the order they were given. */
  lemma {:induction false} AddMissingOrder(xs: seq<string>, values: seq<string>)
    ensures |xs| <= |AddMissing(xs, values)|
    ensures IsSubsequence(AddMissing(xs, values)[|xs|..], values)
    decreases |values|
  {
    if values == [] {
      assert AddMissing(xs, values)[|xs|..] == [];
    } else {
      var init := values[..|values| - 1];
      var v := values[|values| - 1];
      assert values == init + [v];
      AddMissingOrder(xs, init);
      var before := AddMissing(xs, init);
      var added := before[|xs|..];
      var r := AddMissing(xs, values);
      if v in before {
        assert r == before;
        SubsequenceConcat(added, init, [], [v]);
        assert added + [] == added;
      } else {
        assert r == before + [v];
        assert r[|xs|..] == added + [v];
        SubsequenceReflexive([v]);
        SubsequenceConcat(added, init, [v], [v]);
      }
    }
  }

  /**
   * The scalar update removes only the first occurrence of a present value:
   * one copy fewer of it, every other value's count unchanged.
   */
  lemma ToggleFirstPresent(xs: seq<string>, v: string)
    requires v in xs
    ensures multiset(ToggleFirst(xs, v)) == multiset(xs) - multiset{v}
    ensures |ToggleFirst(xs, v)| == |xs| - 1
    ensures exists i :: 0 <= i < |xs| && xs[i] == v && v !in xs[..i] && ToggleFirst(xs, v) == xs[..i] + xs[i + 1..]
  {
    var i := IndexOf(xs, v);
    var r := xs[..i] + xs[i + 1..];
    assert ToggleFirst(xs, v) == r;
    assert xs == xs[..i] + [v] + xs[i + 1..];
    assert multiset(xs) == multiset(r) + multiset{v};
    assert 0 <= i < |xs| && xs[i] == v && v !in xs[..i];
  }

  /** An absent value is appended; a second toggle gives the list back. */
  lemma {:induction false} ToggleFirstTwice(xs: seq<string>, v: string)
    requires v !in xs
    ensures ToggleFirst(xs, v) == xs + [v]
    ensures ToggleFirst(ToggleFirst(xs, v), v) == xs
  {
    var ys := xs + [v];
    var i := IndexOf(ys, v);
    assert ys[|xs|] == v;
    assert i == |xs|;
    assert ys[..i] == xs;
  }

  /** The store's array for one filter key; the handler edits it in place. */
  class ValueList {
    var items: seq<string>

    constructor (items: seq<string>)
      ensures this.items == items
    {
      this.items := items;
    }

    /** The array branch: push each missing value. */
    method AddEachMissing(values: seq<string>)
      modifies this
      ensures items == AddMissing(old(items), values)
    {
      var i := 0;
      while i < |values|
        invariant 0 <= i <= |values|
        invariant items == AddMissing(old(items), values[..i])
      {
        assert values[..i + 1][..i] == values[..i];
        if values[i] !in items {
          items := items + [values[i]];
        }
        i := i + 1;
      }
      assert values[..|values|] == values;
    }

    /** The scalar branch: splice out the first occurrence, or push. */
    method ToggleValue(v: string)
      modifies this
      ensures items == ToggleFirst(old(items), v)
    {
      if v in items {
        var i := IndexOf(items, v);
        items := items[..i] + items[i + 1..];
      } else {
        items := items + [v];
      }
    }

    method Apply(value: FilterValue)
      modifies this
      ensures items == Applied(old(items), value)
    {
      match value
      case Many(values) => AddEachMissing(values);
      case One(v) => ToggleValue(v);
    }
  }

  /** One call of the store's `updateFilters`: the key, its new list, and the module id if any. */
  datatype FilterCall = FilterCall(key: string, values: seq<string>, moduleId: Option<string>)

  /**
   * The issue-filter store: the current array for each filter key, and the
   * `updateFilters` calls it has received.
   */
  class FilterStore {
    var filters: map<string, ValueList>
    var calls: seq<FilterCall>

    /** Each key has its own array. */
    ghost predicate Valid()
      reads this
    {
      forall k1, k2 :: k1 in filters && k2 in filters && k1 != k2 ==> filters[k1] != filters[k2]
    }

    constructor (filters: map<string, ValueList>)
      requires forall k1, k2 :: k1 in filters && k2 in filters && k1 != k2 ==> filters[k1] != filters[k2]
      ensures Valid() && this.filters == filters && calls == []
    {
      this.filters := filters;
      calls := [];
    }

    /** The list stored under `key` (`issueFilters?.filters?.[key] ?? []`), as values. */
    function Current(key: string): seq<string>
      reads this, filters.Values
    {
      if key in filters then filters[key].items else []
    }

    method UpdateFilters(key: string, values: seq<string>, moduleId: Option<string>)
      modifies this`calls
      ensures calls == old(calls) + [FilterCall(key, values, moduleId)]
    {
      calls := calls + [FilterCall(key, values, moduleId)];
    }

    /**
     * Take the store's own array for `key` (or a fresh empty one), apply
     * the rule to it in place, and forward it. The store's array for `key`
     * has changed before `updateFilters` is called; no other key's has.
     */
    method ApplyAndForward(key: string, value: FilterValue, moduleId: Option<string>)
      requires Valid()
      modifies this, filters.Values
      ensures Valid() && filters == old(filters)
      ensures key in filters ==> filters[key].items == Applied(old(filters[key].items), value)
      ensures forall k :: k in filters && k != key ==> filters[k].items == old(filters[k].items)
      ensures calls == old(calls) + [FilterCall(key, Applied(old(Current(key)), value), moduleId)]
    {
      if key in filters {
        var list := filters[key];
        list.Apply(value);
        forall k | k in filters && k != key
          ensures filters[k].items == old(filters[k].items)
        {
          assert filters[k] != list;
        }
        UpdateFilters(key, list.items, moduleId);
      } else {
        var list := new ValueList([]);
        list.Apply(value);
        UpdateFilters(key, list.items, moduleId);
      }
    }
  }
}
