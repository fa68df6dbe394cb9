/** Posted form values: the pairs a browser sends in order, and the multimap the server groups them into. */
module FormValues {
  import opened Wrappers
  import opened QueryEncoding

  type Pairs = seq<(Bytes, Bytes)>
  type Values = map<Bytes, seq<Bytes>>

  function All(values: Values, name: Bytes): seq<Bytes> {
    if name in values then values[name] else []
  }

  /** The first value of the name, or the empty string. */
  function Get(values: Values, name: Bytes): Bytes {
    var all := All(values, name);
    if all == [] then [] else all[0]
  }

  /** How the server groups the pairs of a request body. */
  function Group(pairs: Pairs): Values {
    if pairs == [] then map[]
    else
      var init := Group(pairs[..|pairs| - 1]);
      var (name, value) := pairs[|pairs| - 1];
      init[name := All(init, name) + [value]]
  }

  /** The first pair with the name. */
  function Lookup(pairs: Pairs, name: Bytes): Option<Bytes> {
    if pairs == [] then None
    else if pairs[0].0 == name then Some(pairs[0].1)
    else Lookup(pairs[1..], name)
  }

  lemma {:induction false} LookupInConcat(a: Pairs, b: Pairs, name: Bytes)
    ensures Lookup(a + b, name) == if Lookup(a, name).Some? then Lookup(a, name) else Lookup(b, name)
  {
    if a == [] {
      assert a + b == b;
    } else {
      assert (a + b)[1..] == a[1..] + b;
      LookupInConcat(a[1..], b, name);
    }
  }

  lemma {:induction false} LookupNone(pairs: Pairs, name: Bytes)
    ensures Lookup(pairs, name).None? <==> forall i | 0 <= i < |pairs| :: pairs[i].0 != name
  {
    if pairs != [] {
      LookupNone(pairs[1..], name);
      if i :| 0 <= i < |pairs| && pairs[i].0 == name {
        assert i > 0 ==> pairs[1..][i - 1] == pairs[i];
      }
      if j :| 0 <= j < |pairs[1..]| && pairs[1..][j].0 == name {
        assert pairs[j + 1].0 == name;
      }
    }
  }

  /** Grouping keeps, for every name, the first value sent with it. */
  lemma {:induction false} GroupLookup(pairs: Pairs, name: Bytes)
    ensures name in Group(pairs) <==> Lookup(pairs, name).Some?
    ensures name in Group(pairs) ==> Group(pairs)[name] != []
    ensures Lookup(pairs, name).Some? ==> Get(Group(pairs), name) == Lookup(pairs, name).value
  {
    if pairs != [] {
      var init, last := pairs[..|pairs| - 1], pairs[|pairs| - 1];
      GroupLookup(init, name);
      assert pairs == init + [last];
      LookupInConcat(init, [last], name);
    }
  }

  /** All values sent with a name, in the order of the pairs. */
  function Sent(pairs: Pairs, name: Bytes): seq<Bytes> {
    if pairs == [] then []
    else (if pairs[0].0 == name then [pairs[0].1] else []) + Sent(pairs[1..], name)
  }

  lemma {:induction false} SentInConcat(a: Pairs, b: Pairs, name: Bytes)
    ensures Sent(a + b, name) == Sent(a, name) + Sent(b, name)
  {
    if a == [] {
      assert a + b == b;
    } else {
      assert (a + b)[1..] == a[1..] + b;
      SentInConcat(a[1..], b, name);
    }
  }

  /** Grouping keeps all of them, and their order. */
  lemma {:induction false} GroupKeepsAll(pairs: Pairs, name: Bytes)
    ensures All(Group(pairs), name) == Sent(pairs, name)
  {
    if pairs != [] {
      var init, last := pairs[..|pairs| - 1], pairs[|pairs| - 1];
      GroupKeepsAll(init, name);
      assert pairs == init + [last];
      SentInConcat(init, [last], name);
    }
  }
}
