/**
 The session as it travels: a map written into hidden inputs and read back from the next
 post. Names and values are escaped on the way out and taken as they are on the way in.
 */
module Session {
  import opened Wrappers
  import opened QueryEncoding
  import opened FormValues
  import opened Html
  import opened Utils

  const PREFIX: Bytes := "__"

  type SessionMap = map<Bytes, Bytes>

  function ValueAt(m: SessionMap, k: Bytes): Bytes {
    if k in m then m[k] else []
  }

  function SessionPairs(order: seq<Bytes>, m: SessionMap): Pairs {
    seq(|order|, i requires 0 <= i < |order| => (PREFIX + Escape(order[i]), Escape(ValueAt(m, order[i]))))
  }

  /** `html` holds one hidden input per entry of the map, in the order in which the map was walked. */
  ghost predicate Embeds(html: Bytes, m: SessionMap) {
    exists order: seq<Bytes> :: Ordering(order, m.Keys) && html == HiddenInputs(SessionPairs(order, m))
  }

  lemma {:induction false} OrderExists(keys: set<Bytes>) returns (order: seq<Bytes>)
    ensures Ordering(order, keys)
  {
    order := [];
    if keys != {} {
      var k :| k in keys;
      var others := OrderExists(keys - {k});
      order := others + [k];
    }
  }

  lemma EmbeddingExists(m: SessionMap) returns (html: Bytes)
    ensures Embeds(html, m)
  {
    var order := OrderExists(m.Keys);
    html := HiddenInputs(SessionPairs(order, m));
  }

  function SessionKeys(values: Values): set<Bytes> {
    set name | name in values && PREFIX <= name :: name[2..]
  }

  /** The session of a request: every posted name that starts with the prefix, with its first value. */
  function SessionOf(values: Values): SessionMap {
    map k | k in SessionKeys(values) :: Get(values, PREFIX + k)
  }

  lemma SessionKey(values: Values, k: Bytes)
    ensures k in SessionOf(values) <==> PREFIX + k in values
  {
    if PREFIX + k in values {
      assert (PREFIX + k)[2..] == k;
    }
    if name :| name in values && PREFIX <= name && name[2..] == k {
      assert name == PREFIX + k;
    }
  }

  /** Reading the session out of a list of posted pairs: the first pair of each name counts. */
  lemma SessionOfPairs(pairs: Pairs, k: Bytes)
    ensures k in SessionOf(Group(pairs)) <==> Lookup(pairs, PREFIX + k).Some?
    ensures k in SessionOf(Group(pairs)) ==> SessionOf(Group(pairs))[k] == Lookup(pairs, PREFIX + k).value
  {
    SessionKey(Group(pairs), k);
    GroupLookup(pairs, PREFIX + k);
  }

  /** One page turn: every name and every value escaped once. */
  function Turned(m: SessionMap): SessionMap {
    map e | e in (set k | k in m :: Escape(k)) :: Escape(ValueAt(m, Unescape(e).GetOr([])))
  }

  lemma TurnedAt(m: SessionMap, k: Bytes)
    ensures Escape(k) in Turned(m) <==> k in m
    ensures k in m ==> Turned(m)[Escape(k)] == Escape(m[k])
  {
    UnescapeInvertsEscape(k);
    if j :| j in m && Escape(j) == Escape(k) {
      EscapeInjective(j, k);
    }
  }

  lemma SessionPairsQuotable(order: seq<Bytes>, m: SessionMap)
    ensures Quotable(SessionPairs(order, m))
  {
    var pairs := SessionPairs(order, m);
    forall i | 0 <= i < |pairs| ensures '"' !in pairs[i].0 && '"' !in pairs[i].1 {
      EscapeNeedsNoQuoting(order[i]);
      EscapeNeedsNoQuoting(ValueAt(m, order[i]));
    }
  }

  /** What a browser finds under a name in an embedded session is what one page turn leaves there. */
  lemma EmbeddedLookup(html: Bytes, m: SessionMap, e: Bytes)
    requires Embeds(html, m)
    ensures Lookup(ReadInputs(html), PREFIX + e) == if e in Turned(m) then Some(Turned(m)[e]) else None
  {
    var order: seq<Bytes> :| Ordering(order, m.Keys) && html == HiddenInputs(SessionPairs(order, m));
    SessionPairsQuotable(order, m);
    ReadInputsOfInputs(SessionPairs(order, m));
    PairsLookup(order, m, e);
  }

  lemma {:induction false} PairsLookup(order: seq<Bytes>, m: SessionMap, e: Bytes)
    requires NoRepeats(order)
    ensures forall k | k in order && Escape(k) == e ::
              Lookup(SessionPairs(order, m), PREFIX + e) == Some(Escape(ValueAt(m, k)))
    ensures (forall k | k in order :: Escape(k) != e) ==> Lookup(SessionPairs(order, m), PREFIX + e) == None
    ensures Ordering(order, m.Keys) ==>
              Lookup(SessionPairs(order, m), PREFIX + e) == if e in Turned(m) then Some(Turned(m)[e]) else None
  {
    if order != [] {
      var pairs := SessionPairs(order, m);
      assert pairs[1..] == SessionPairs(order[1..], m);
      PairsLookup(order[1..], m, e);
      if Escape(order[0]) == e {
        forall k | k in order && Escape(k) == e ensures k == order[0] {
          EscapeInjective(k, order[0]);
        }
      } else {
        assert (PREFIX + Escape(order[0]))[2..] == Escape(order[0]) && (PREFIX + e)[2..] == e;
        assert order == [order[0]] + order[1..];
      }
    }
    if Ordering(order, m.Keys) {
      forall k | k in order ensures Escape(k) in Turned(m) && Turned(m)[Escape(k)] == Escape(ValueAt(m, k)) {
        TurnedAt(m, k);
      }
    }
  }

  ghost predicate OnlyEntries(html: Bytes) {
    forall i | 0 <= i < |ReadInputs(html)| :: PREFIX <= ReadInputs(html)[i].0
  }

  /** An embedded session holds session entries only. */
  lemma EmbeddedOnlyEntries(html: Bytes, m: SessionMap)
    requires Embeds(html, m)
    ensures OnlyEntries(html)
  {
    var order: seq<Bytes> :| Ordering(order, m.Keys) && html == HiddenInputs(SessionPairs(order, m));
    SessionPairsQuotable(order, m);
    ReadInputsOfInputs(SessionPairs(order, m));
  }

  /**
   Round trip through a page, whatever other inputs follow the session on it: the session
   read back is the old one turned, plus what the other inputs add under free names.
   */
  lemma SessionAfterPost(html: Bytes, m: SessionMap, before: Pairs, after: Pairs, k: Bytes)
    requires Embeds(html, m) && Lookup(before, PREFIX + k).None?
    ensures var posted := SessionOf(Group(before + ReadInputs(html) + after));
      && (k in Turned(m) ==> k in posted && posted[k] == Turned(m)[k])
      && (k !in Turned(m) ==> (k in posted <==> Lookup(after, PREFIX + k).Some?))
      && (k !in Turned(m) && k in posted ==> posted[k] == Lookup(after, PREFIX + k).value)
  {
    EmbeddedLookup(html, m, k);
    LookupInConcat(before, ReadInputs(html), PREFIX + k);
    LookupInConcat(before + ReadInputs(html), after, PREFIX + k);
    SessionOfPairs(before + ReadInputs(html) + after, k);
  }

  /** The session that comes back from a page that holds nothing else is exactly the old one turned. */
  lemma SessionRoundTrip(html: Bytes, m: SessionMap)
    requires Embeds(html, m)
    ensures SessionOf(Group(ReadInputs(html))) == Turned(m)
  {
    assert [] + ReadInputs(html) + [] == ReadInputs(html);
    forall k
      ensures k in SessionOf(Group(ReadInputs(html))) <==> k in Turned(m)
      ensures k in Turned(m) ==> SessionOf(Group(ReadInputs(html)))[k] == Turned(m)[k]
    {
      SessionAfterPost(html, m, [], [], k);
    }
  }

  function TurnTimes(n: nat, m: SessionMap): SessionMap {
    if n == 0 then m else TurnTimes(n - 1, Turned(m))
  }

  /** After `n` turns an entry sits under its name escaped `n` times, its value escaped `n` times. */
  lemma {:induction false} TurnTimesAt(n: nat, m: SessionMap, k: Bytes)
    ensures EscapeTimes(n, k) in TurnTimes(n, m) <==> k in m
    ensures k in m ==> TurnTimes(n, m)[EscapeTimes(n, k)] == EscapeTimes(n, m[k])
  {
    if n > 0 {
      TurnedAt(m, k);
      TurnTimesAt(n - 1, Turned(m), Escape(k));
    }
  }

  lemma {:induction false} TurnTimesKeys(n: nat, m: SessionMap, e: Bytes) returns (k: Bytes)
    requires e in TurnTimes(n, m)
    ensures k in m && EscapeTimes(n, k) == e
  {
    if n == 0 {
      k := e;
    } else {
      var t := TurnTimesKeys(n - 1, Turned(m), e);
      k :| k in m && Escape(k) == t;
    }
  }

  ghost predicate Plain(m: SessionMap) {
    forall k | k in m :: AllUnreserved(k) && AllUnreserved(m[k])
  }

  /** A session survives any number of page turns unchanged exactly when all its names and values are unreserved. */
  lemma SessionSurvives(n: nat, m: SessionMap)
    requires n > 0
    ensures TurnTimes(n, m) == m <==> Plain(m)
  {
    if Plain(m) {
      forall k | k in m ensures k in TurnTimes(n, m) && TurnTimes(n, m)[k] == m[k] {
        TurnTimesAt(n, m, k);
        EscapeTimesGrows(n, k);
        EscapeTimesGrows(n, m[k]);
      }
      forall e | e in TurnTimes(n, m) ensures e in m {
        var k := TurnTimesKeys(n, m, e);
        EscapeTimesGrows(n, k);
      }
    } else if TurnTimes(n, m) == m {
      NamesSurviveOnlyPlain(n, m);
      forall k | k in m ensures AllUnreserved(m[k]) {
        TurnTimesAt(n, m, k);
        EscapeTimesGrows(n, k);
        EscapeTimesFixedPoint(n, m[k]);
      }
    }
  }

  lemma NamesSurviveOnlyPlain(n: nat, m: SessionMap)
    requires n > 0 && TurnTimes(n, m) == m
    ensures forall k | k in m :: AllUnreserved(k)
  {
    var reserved := set k | k in m && !AllUnreserved(k);
    if reserved != {} {
      var h := HeaviestExists(reserved);
      TurnTimesAt(n, m, h);
      EscapeTimesGrows(n, h);
      if AllUnreserved(EscapeTimes(n, h)) {
        EscapeTimesGrows(n, EscapeTimes(n, h));
        EscapeTimesInjective(n, EscapeTimes(n, h), h);
      }
    }
    forall k | k in m ensures AllUnreserved(k) {
      assert k !in reserved;
    }
  }
}
