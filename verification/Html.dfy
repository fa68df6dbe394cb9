/**
 The hidden inputs that carry a session through the browser: how the server writes them
 as text, and what a browser reads from that text and posts back.
 */
module Html {
  import opened Wrappers
  import opened QueryEncoding
  import opened FormValues
  import opened Utils

  const OPEN: Bytes := "<input type=\"hidden\" name=\""
  const MIDDLE: Bytes := "\" value=\""
  const CLOSE: Bytes := "\"/>"

  function HiddenInput(name: Bytes, value: Bytes): Bytes {
    OPEN + name + MIDDLE + value + CLOSE
  }

  function HiddenInputs(pairs: Pairs): Bytes {
    if pairs == [] then []
    else HiddenInputs(pairs[..|pairs| - 1]) + HiddenInput(pairs[|pairs| - 1].0, pairs[|pairs| - 1].1)
  }

  /** The text before the next quotation mark, and the text from that mark on. */
  function UpToQuote(text: Bytes): (r: (Bytes, Bytes))
    ensures text == r.0 + r.1
  {
    if text == [] || text[0] == '"' then ([], text)
    else var (head, rest) := UpToQuote(text[1..]); ([text[0]] + head, rest)
  }

  /** One hidden input: its name, its value and the text behind it. */
  function ReadInput(text: Bytes): Option<((Bytes, Bytes), Bytes)> {
    var a := After(text, OPEN);
    if a.None? then None
    else
      var (name, b) := UpToQuote(a.value);
      var c := After(b, MIDDLE);
      if c.None? then None
      else
        var (value, d) := UpToQuote(c.value);
        var e := After(d, CLOSE);
        if e.None? then None else Some(((name, value), e.value))
  }

  /** A sequence of hidden inputs, as a browser finds them inside a form; anything else is not read. */
  function ReadInputs(text: Bytes): Pairs
    decreases |text|
  {
    var first := ReadInput(text);
    if first.None? || |first.value.1| >= |text| then []
    else [first.value.0] + ReadInputs(first.value.1)
  }

  lemma {:induction false} UpToQuoteFinds(s: Bytes, rest: Bytes)
    requires '"' !in s && rest != [] && rest[0] == '"'
    ensures UpToQuote(s + rest) == (s, rest)
  {
    if s == [] {
      assert s + rest == rest;
    } else {
      assert (s + rest)[1..] == s[1..] + rest;
      UpToQuoteFinds(s[1..], rest);
      assert s == [s[0]] + s[1..];
    }
  }

  lemma ReadInputOfInput(name: Bytes, value: Bytes, rest: Bytes)
    requires '"' !in name && '"' !in value
    ensures ReadInput(HiddenInput(name, value) + rest) == Some(((name, value), rest))
  {
    var behindValue := CLOSE + rest;
    var behindName := MIDDLE + (value + behindValue);
    assert HiddenInput(name, value) + rest == OPEN + (name + behindName);
    UpToQuoteFinds(name, behindName);
    UpToQuoteFinds(value, behindValue);
  }

  predicate Quotable(pairs: Pairs) {
    forall i | 0 <= i < |pairs| :: '"' !in pairs[i].0 && '"' !in pairs[i].1
  }

  lemma {:induction false} HiddenInputsFromFront(pairs: Pairs)
    requires pairs != []
    ensures HiddenInputs(pairs) == HiddenInput(pairs[0].0, pairs[0].1) + HiddenInputs(pairs[1..])
  {
    hide HiddenInput;
    if |pairs| == 1 {
      assert pairs[..0] == [];
    } else {
      var init, rest, last := pairs[..|pairs| - 1], pairs[1..], pairs[|pairs| - 1];
      HiddenInputsFromFront(init);
      assert init[1..] == rest[..|rest| - 1] && rest[|rest| - 1] == last && init[0] == pairs[0];
      ghost var a, b, c := HiddenInput(pairs[0].0, pairs[0].1), HiddenInputs(init[1..]), HiddenInput(last.0, last.1);
      assert HiddenInputs(rest) == b + c;
      assert HiddenInputs(pairs) == HiddenInputs(init) + c;
      assert (a + b) + c == a + (b + c);
    }
  }

  /** A browser reads back exactly the pairs that were written, in order. */
  lemma {:induction false} ReadInputsOfInputs(pairs: Pairs)
    requires Quotable(pairs)
    ensures ReadInputs(HiddenInputs(pairs)) == pairs
  {
    if pairs != [] {
      HiddenInputsFromFront(pairs);
      ReadInputOfInput(pairs[0].0, pairs[0].1, HiddenInputs(pairs[1..]));
      ReadInputsOfInputs(pairs[1..]);
    }
  }
}
