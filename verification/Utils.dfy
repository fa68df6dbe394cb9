/** Deduplication and the small set type used for options and access codes. */
module Utils {
  import opened Wrappers

  /** What follows `token` in a text that starts with it. */
  function After<T(==)>(text: seq<T>, token: seq<T>): (rest: Option<seq<T>>)
    ensures rest.Some? ==> text == token + rest.value
  {
    if token <= text then Some(text[|token|..]) else None
  }

  lemma AfterToken<T>(token: seq<T>, rest: seq<T>)
    ensures After(token + rest, token) == Some(rest)
  {
  }

  /** The values without repetitions, each at the place where it occurs first. */
  function FirstOccurrences<T(==)>(values: seq<T>): seq<T> {
    if values == [] then []
    else
      var kept := FirstOccurrences(values[..|values| - 1]);
      var last := values[|values| - 1];
      if last in kept then kept else kept + [last]
  }

  ghost predicate NoRepeats<T>(values: seq<T>) {
    forall i, j | 0 <= i < j < |values| :: values[i] != values[j]
  }

  /** `order` lists the set, in an order of its own, as a loop over the keys of a map does. */
  ghost predicate Ordering<T(!new)>(order: seq<T>, keys: set<T>) {
    NoRepeats(order) && forall k :: k in order <==> k in keys
  }

  /** `at` picks strictly increasing positions, each the first one that holds its value. */
  ghost predicate PicksFirsts<T>(at: seq<nat>, values: seq<T>, out: seq<T>) {
    && |at| == |out|
    && (forall i, j | 0 <= i < j < |at| :: at[i] < at[j])
    && (forall i | 0 <= i < |at| :: at[i] < |values| && values[at[i]] == out[i] && out[i] !in values[..at[i]])
  }

  /** What deduplication promises: same elements, no repetition, order of first occurrence. */
  lemma {:induction false} FirstOccurrencesMeaning<T>(values: seq<T>) returns (at: seq<nat>)
    ensures NoRepeats(FirstOccurrences(values))
    ensures forall v :: v in FirstOccurrences(values) <==> v in values
    ensures PicksFirsts(at, values, FirstOccurrences(values))
  {
    if values == [] {
      at := [];
    } else {
      var n := |values| - 1;
      var init := values[..n];
      at := FirstOccurrencesMeaning(init);
      assert values == init + [values[n]];
      forall i | 0 <= i < |at| ensures values[at[i]] == init[at[i]] && values[..at[i]] == init[..at[i]] {
      }
      if values[n] !in FirstOccurrences(init) {
        at := at + [n];
      }
    }
  }

  function Filter<T>(values: seq<T>, keep: T -> bool): seq<T> {
    if values == [] then []
    else
      var init := Filter(values[..|values| - 1], keep);
      var last := values[|values| - 1];
      if keep(last) then init + [last] else init
  }

  ghost predicate FirstKept<T>(values: seq<T>, keep: T -> bool, i: nat) {
    i < |values| && keep(values[i]) && forall j | 0 <= j < i :: !keep(values[j])
  }

  lemma {:induction false} FilterMeaning<T>(values: seq<T>, keep: T -> bool)
    ensures forall v :: v in Filter(values, keep) <==> v in values && keep(v)
    ensures Filter(values, keep) != [] ==>
              exists i: nat :: FirstKept(values, keep, i) && values[i] == Filter(values, keep)[0]
  {
    if values != [] {
      var n := |values| - 1;
      var init := values[..n];
      FilterMeaning(init, keep);
      assert values == init + [values[n]];
      if Filter(init, keep) != [] {
        var i: nat :| FirstKept(init, keep, i) && init[i] == Filter(init, keep)[0];
        assert FirstKept(values, keep, i);
      } else if keep(values[n]) {
        forall j | 0 <= j < n ensures !keep(values[j]) {
          assert init[j] in init;
        }
        assert FirstKept(values, keep, n);
      }
    }
  }

  /** Deduplicating and filtering commute: in particular the first value kept is the same. */
  lemma {:induction false} FilterFirstOccurrences<T>(values: seq<T>, keep: T -> bool)
    ensures Filter(FirstOccurrences(values), keep) == FirstOccurrences(Filter(values, keep))
  {
    if values != [] {
      var n := |values| - 1;
      var init := values[..n];
      FilterFirstOccurrences(init, keep);
      var once := FirstOccurrences(init);
      var _ := FirstOccurrencesMeaning(init);
      FilterMeaning(once, keep);
      assert (once + [values[n]])[..|once|] == once;
      if keep(values[n]) {
        assert (Filter(init, keep) + [values[n]])[..|Filter(init, keep)|] == Filter(init, keep);
      }
    }
  }

  lemma {:induction false} FirstOccurrencesHead<T>(values: seq<T>)
    requires values != []
    ensures FirstOccurrences(values) != [] && FirstOccurrences(values)[0] == values[0]
  {
    if |values| > 1 {
      FirstOccurrencesHead(values[..|values| - 1]);
    }
  }

  method Uniq<T(==)>(values: seq<T>) returns (out: seq<T>)
    ensures out == FirstOccurrences(values)
    ensures NoRepeats(out)
    ensures forall v :: v in out <==> v in values
  {
    var seen: set<T> := {};
    out := [];
    for i := 0 to |values|
      invariant out == FirstOccurrences(values[..i])
      invariant forall v :: v in seen <==> v in out
    {
      assert values[..i + 1][..i] == values[..i];
      if values[i] !in seen {
        seen := seen + {values[i]};
        out := out + [values[i]];
      }
    }
    assert values[..|values|] == values;
    var _ := FirstOccurrencesMeaning(values);
  }

  /** A set that is filled in place. */
  class Set<T(==)> {
    var elements: set<T>

    constructor (values: seq<T>)
      ensures elements == set v | v in values
    {
      elements := {};
      new;
      Add(values);
    }

    method Add(values: seq<T>)
      modifies this
      ensures elements == old(elements) + set v | v in values
    {
      for i := 0 to |values|
        invariant elements == old(elements) + set v | v in values[..i]
      {
        elements := elements + {values[i]};
        assert values[..i + 1] == values[..i] + [values[i]];
      }
      assert values[..|values|] == values;
    }

    method Has(values: seq<T>) returns (all: bool)
      ensures all <==> forall v | v in values :: v in elements
    {
      for i := 0 to |values|
        invariant forall v | v in values[..i] :: v in elements
      {
        if values[i] !in elements {
          return false;
        }
        assert values[..i + 1] == values[..i] + [values[i]];
      }
      assert values[..|values|] == values;
      return true;
    }
  }
}
