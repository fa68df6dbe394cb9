/**
 Percent-encoding as the original uses it through Go's `url.QueryEscape` and
 `url.QueryUnescape`: RFC 3986 section 2.1 escapes with upper-case digits, the
 unreserved characters of section 2.3 left alone, and a space written as `+`.

 Session values are escaped when a page is written and not unescaped when it is
 posted back, so the iterated escape matters as much as the single one.
 */
module QueryEncoding {
  import opened Wrappers

  /** Go strings are byte strings: one character per byte. */
  type Octet = c: char | c as int < 256 witness 'a'
  type Bytes = seq<Octet>

  predicate Unreserved(c: Octet) {
    || 'a' <= c <= 'z' || 'A' <= c <= 'Z' || '0' <= c <= '9'
    || c == '-' || c == '_' || c == '.' || c == '~'
  }

  predicate AllUnreserved(s: Bytes) {
    forall i | 0 <= i < |s| :: Unreserved(s[i])
  }

  function HexDigit(n: nat): Octet
    requires n < 16
  {
    "0123456789ABCDEF"[n]
  }

  function HexValue(c: Octet): (r: Option<nat>)
    ensures r.Some? ==> r.value < 16
  {
    if '0' <= c <= '9' then Some(c as int - '0' as int)
    else if 'A' <= c <= 'F' then Some(c as int - 'A' as int + 10)
    else if 'a' <= c <= 'f' then Some(c as int - 'a' as int + 10)
    else None
  }

  function EscapeOctet(c: Octet): Bytes {
    if Unreserved(c) then [c]
    else if c == ' ' then "+"
    else ['%', HexDigit(c as int / 16), HexDigit(c as int % 16)]
  }

  function Escape(s: Bytes): Bytes {
    if s == [] then [] else EscapeOctet(s[0]) + Escape(s[1..])
  }

  function Prepend(c: Octet, r: Option<Bytes>): Option<Bytes> {
    if r.Some? then Some([c] + r.value) else None
  }

  /** None is the error of a `%` that is not followed by two hexadecimal digits. */
  function Unescape(s: Bytes): Option<Bytes> {
    if s == [] then Some([])
    else if s[0] == '+' then Prepend(' ', Unescape(s[1..]))
    else if s[0] != '%' then Prepend(s[0], Unescape(s[1..]))
    else if |s| < 3 || HexValue(s[1]).None? || HexValue(s[2]).None? then None
    else Prepend((16 * HexValue(s[1]).value + HexValue(s[2]).value) as char, Unescape(s[3..]))
  }

  predicate UpperHex(c: Octet) {
    '0' <= c <= '9' || 'A' <= c <= 'F'
  }

  /** A reserved octet other than the space becomes `%` and two upper-case digits of its code. */
  lemma EscapedForm(c: Octet)
    requires !Unreserved(c) && c != ' '
    ensures var e := EscapeOctet(c);
      && |e| == 3 && e[0] == '%' && UpperHex(e[1]) && UpperHex(e[2])
      && HexValue(e[1]).Some? && HexValue(e[2]).Some?
      && 16 * HexValue(e[1]).value + HexValue(e[2]).value == c as int
  {
    HexRoundTrip(c as int / 16);
    HexRoundTrip(c as int % 16);
  }

  lemma HexRoundTrip(n: nat)
    requires n < 16
    ensures HexValue(HexDigit(n)) == Some(n) && UpperHex(HexDigit(n))
  {
  }

  lemma UnescapeOctet(c: Octet, rest: Bytes)
    ensures Unescape(EscapeOctet(c) + rest) == Prepend(c, Unescape(rest))
  {
    var e := EscapeOctet(c) + rest;
    if Unreserved(c) || c == ' ' {
      assert e[1..] == rest;
    } else {
      var n := c as int;
      HexRoundTrip(n / 16);
      HexRoundTrip(n % 16);
      assert e[3..] == rest;
    }
  }

  /** Unescaping undoes escaping, on every byte string. */
  lemma {:induction false} UnescapeInvertsEscape(s: Bytes)
    ensures Unescape(Escape(s)) == Some(s)
  {
    if s != [] {
      UnescapeOctet(s[0], Escape(s[1..]));
      UnescapeInvertsEscape(s[1..]);
      assert s == [s[0]] + s[1..];
    }
  }

  lemma EscapeInjective(s: Bytes, t: Bytes)
    requires Escape(s) == Escape(t)
    ensures s == t
  {
    UnescapeInvertsEscape(s);
    UnescapeInvertsEscape(t);
  }

  /** What an escaped string is made of: nothing that HTML treats specially inside an attribute. */
  predicate AttributeSafe(s: Bytes) {
    forall i | 0 <= i < |s| :: Unreserved(s[i]) || s[i] == '+' || s[i] == '%'
  }

  lemma EscapeOctetIsSafe(c: Octet)
    ensures AttributeSafe(EscapeOctet(c))
  {
    HexDigitUnreserved(c as int / 16);
    HexDigitUnreserved(c as int % 16);
  }

  lemma HexDigitUnreserved(n: nat)
    requires n < 16
    ensures Unreserved(HexDigit(n))
  {
  }

  lemma {:induction false} EscapeIsAttributeSafe(s: Bytes)
    ensures AttributeSafe(Escape(s))
  {
    if s != [] {
      EscapeIsAttributeSafe(s[1..]);
      EscapeOctetIsSafe(s[0]);
    }
  }

  /** So it needs no further escaping inside an HTML attribute. */
  lemma EscapeNeedsNoQuoting(s: Bytes)
    ensures '"' !in Escape(s) && '<' !in Escape(s) && '>' !in Escape(s) && '&' !in Escape(s)
  {
    EscapeIsAttributeSafe(s);
  }

  /** Escaping `n` times: what `n` page turns do to one string of the session. */
  function EscapeTimes(n: nat, s: Bytes): Bytes {
    if n == 0 then s else EscapeTimes(n - 1, Escape(s))
  }

  lemma {:induction false} EscapeTimesOuter(n: nat, s: Bytes)
    ensures EscapeTimes(n + 1, s) == Escape(EscapeTimes(n, s))
  {
    if n > 0 {
      EscapeTimesOuter(n - 1, Escape(s));
    }
  }

  /** A measure that escaping keeps exactly on unreserved strings and increases on all others. */
  function Weight(s: Bytes): nat {
    if s == [] then 0 else OctetWeight(s[0]) + Weight(s[1..])
  }

  function OctetWeight(c: Octet): nat {
    if Unreserved(c) then 1 else if c == ' ' then 2 else 3
  }

  lemma {:induction false} WeightOfConcat(s: Bytes, t: Bytes)
    ensures Weight(s + t) == Weight(s) + Weight(t)
  {
    if s == [] {
      assert s + t == t;
    } else {
      assert (s + t)[1..] == s[1..] + t;
      WeightOfConcat(s[1..], t);
    }
  }

  lemma EscapeOctetGrows(c: Octet)
    ensures Weight(EscapeOctet(c)) >= OctetWeight(c)
    ensures Weight(EscapeOctet(c)) == OctetWeight(c) ==> Unreserved(c)
  {
    var e := EscapeOctet(c);
    if !Unreserved(c) && c != ' ' {
      WeightOfConcat([e[0]], [e[1], e[2]]);
      WeightOfConcat([e[1]], [e[2]]);
      assert e == [e[0]] + [e[1], e[2]] && [e[1], e[2]] == [e[1]] + [e[2]];
      assert Weight([e[0]]) == 3 && Weight([e[1]]) >= 1;
    }
  }

  lemma {:induction false} EscapeGrows(s: Bytes)
    ensures Weight(Escape(s)) >= Weight(s)
    ensures Weight(Escape(s)) == Weight(s) ==> AllUnreserved(s)
    ensures AllUnreserved(s) ==> Escape(s) == s
  {
    if s != [] {
      EscapeOctetGrows(s[0]);
      WeightOfConcat(EscapeOctet(s[0]), Escape(s[1..]));
      EscapeGrows(s[1..]);
      assert s == [s[0]] + s[1..];
    }
  }

  /** Exactly the unreserved strings are unchanged by escaping. */
  lemma EscapeFixedPoint(s: Bytes)
    ensures Escape(s) == s <==> AllUnreserved(s)
  {
    EscapeGrows(s);
  }

  lemma {:induction false} EscapeTimesGrows(n: nat, s: Bytes)
    ensures Weight(EscapeTimes(n, s)) >= Weight(s)
    ensures n > 0 && !AllUnreserved(s) ==> Weight(EscapeTimes(n, s)) > Weight(s)
    ensures AllUnreserved(s) ==> EscapeTimes(n, s) == s
  {
    EscapeGrows(s);
    if n > 0 {
      EscapeTimesGrows(n - 1, Escape(s));
    }
  }

  /** No number of escapes ever brings a string with a reserved character back. */
  lemma EscapeTimesFixedPoint(n: nat, s: Bytes)
    requires n > 0
    ensures EscapeTimes(n, s) == s <==> AllUnreserved(s)
  {
    EscapeTimesGrows(n, s);
  }

  lemma {:induction false} EscapeTimesInjective(n: nat, s: Bytes, t: Bytes)
    requires EscapeTimes(n, s) == EscapeTimes(n, t)
    ensures s == t
  {
    if n > 0 {
      EscapeTimesInjective(n - 1, Escape(s), Escape(t));
      EscapeInjective(s, t);
    }
  }

  /** An element that no other element of the set outweighs. */
  lemma {:induction false} HeaviestExists(codes: set<Bytes>) returns (heaviest: Bytes)
    requires codes != {}
    ensures heaviest in codes
    ensures forall c | c in codes :: Weight(c) <= Weight(heaviest)
    decreases codes
  {
    var c :| c in codes;
    heaviest := c;
    if codes != {c} {
      var other := HeaviestExists(codes - {c});
      heaviest := if Weight(other) > Weight(c) then other else c;
    }
  }

  ghost predicate EscapeClosed(codes: set<Bytes>) {
    forall c | c in codes :: Escape(c) in codes
  }

  ghost predicate EachUnreserved(codes: set<Bytes>) {
    forall c | c in codes :: AllUnreserved(c)
  }

  /**
   A finite set is closed under escaping exactly when all its elements are unreserved:
   the heaviest element with a reserved character would escape to a heavier one.
   */
  lemma ClosedUnderEscape(codes: set<Bytes>)
    ensures EscapeClosed(codes) <==> EachUnreserved(codes)
  {
    if EachUnreserved(codes) {
      forall c | c in codes ensures Escape(c) in codes {
        EscapeFixedPoint(c);
      }
    } else if EscapeClosed(codes) {
      var reserved := set c | c in codes && !AllUnreserved(c);
      var bad :| bad in codes && !AllUnreserved(bad);
      assert bad in reserved;
      var h := HeaviestExists(reserved);
      EscapeGrows(h);
      EscapedKeepsReserved(h);
    }
  }

  /** Escaping a reserved character leaves one of the reserved characters `+` and `%`. */
  lemma {:induction false} EscapedKeepsReserved(s: Bytes)
    requires !AllUnreserved(s)
    ensures !AllUnreserved(Escape(s))
  {
    var e := Escape(s);
    if Unreserved(s[0]) {
      var i :| 0 <= i < |s| && !Unreserved(s[i]);
      assert s[1..][i - 1] == s[i];
      EscapedKeepsReserved(s[1..]);
      var j :| 0 <= j < |Escape(s[1..])| && !Unreserved(Escape(s[1..])[j]);
      assert e[j + 1] == Escape(s[1..])[j];
    } else {
      assert !Unreserved(e[0]);
    }
  }

  /**
   The zone name that the form handler recovers from the session: unescaped once, or
   taken as it is when it does not unescape.
   */
  function DecodeOnce(s: Bytes): Bytes {
    Unescape(s).GetOr(s)
  }

  /** Unescaping shortens or rewrites every string that holds one of its two special characters. */
  lemma {:induction false} UnescapeFixedPoint(s: Bytes)
    requires Unescape(s).Some?
    ensures |Unescape(s).value| <= |s|
    ensures Unescape(s).value == s <==> '+' !in s && '%' !in s
  {
    if s != [] {
      var t := Unescape(s).value;
      assert s == [s[0]] + s[1..];
      if s[0] == '%' {
        UnescapeFixedPoint(s[3..]);
      } else {
        UnescapeFixedPoint(s[1..]);
        assert t == [t[0]] + Unescape(s[1..]).value;
      }
    }
  }

  /** When a value that was never escaped is decoded to itself. */
  predicate DecodesToItself(s: Bytes) {
    ('+' !in s && '%' !in s) || Unescape(s).None?
  }

  /** After k page turns, k > 0, the decoded value is one escape behind the carried one. */
  lemma DecodeAfterTurns(k: nat, s: Bytes)
    requires k > 0
    ensures DecodeOnce(EscapeTimes(k, s)) == EscapeTimes(k - 1, s)
  {
    EscapeTimesOuter(k - 1, s);
    UnescapeInvertsEscape(EscapeTimes(k - 1, s));
  }

  /**
   When the decoded value is right: at once if it was sent without special characters,
   always after one turn, and later only if it is made of unreserved characters.
   */
  lemma DecodeSurvives(k: nat, s: Bytes)
    ensures DecodeOnce(EscapeTimes(k, s)) == s <==>
              if k == 0 then DecodesToItself(s) else k == 1 || AllUnreserved(s)
  {
    if k == 0 {
      if Unescape(s).Some? {
        UnescapeFixedPoint(s);
      }
    } else {
      DecodeAfterTurns(k, s);
      if k > 1 {
        EscapeTimesFixedPoint(k - 1, s);
      }
    }
  }
}
