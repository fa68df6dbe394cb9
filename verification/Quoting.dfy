/**
 Quoting with a backslash escape, written rune by rune into a text builder, and the
 reader that undoes it.
 */
module Quoting {
  import opened Wrappers

  const ESCAPE: char := '\\'

  class Builder {
    var text: string

    constructor ()
      ensures text == ""
    {
      text := "";
    }

    method WriteRune(c: char)
      modifies this
      ensures text == old(text) + [c]
    {
      text := text + [c];
    }

    method WriteString(s: string)
      modifies this
      ensures text == old(text) + s
    {
      text := text + s;
    }
  }

  function EscapedRune(c: char, q: char): string {
    if c == q || c == ESCAPE then [ESCAPE, c] else [c]
  }

  function Escaped(value: string, q: char): string {
    if value == "" then "" else Escaped(value[..|value| - 1], q) + EscapedRune(value[|value| - 1], q)
  }

  function Quoted(value: string, q: char): string {
    [q] + Escaped(value, q) + [q]
  }

  method QuoteBuilder(out: Builder, value: string, q: char)
    modifies out
    ensures out.text == old(out.text) + Quoted(value, q)
  {
    out.WriteRune(q);
    for i := 0 to |value|
      invariant out.text == old(out.text) + [q] + Escaped(value[..i], q)
    {
      assert value[..i + 1][..i] == value[..i];
      var c := value[i];
      if c == q || c == ESCAPE {
        out.WriteRune(ESCAPE);
      }
      out.WriteRune(c);
    }
    assert value[..|value|] == value;
    out.WriteRune(q);
  }

  method Quote(value: string, q: char) returns (text: string)
    ensures text == Quoted(value, q)
  {
    var out := new Builder();
    QuoteBuilder(out, value, q);
    text := out.text;
  }

  function Prepend(c: char, r: Option<(string, string)>): Option<(string, string)> {
    if r.Some? then Some(([c] + r.value.0, r.value.1)) else None
  }

  /** The text up to the closing quotation mark, unescaped, and what follows the mark. */
  function ReadEscaped(text: string, q: char): Option<(string, string)> {
    if text == "" then None
    else if text[0] == q then Some(("", text[1..]))
    else if text[0] != ESCAPE then Prepend(text[0], ReadEscaped(text[1..], q))
    else if |text| < 2 || (text[1] != q && text[1] != ESCAPE) then None
    else Prepend(text[1], ReadEscaped(text[2..], q))
  }

  function Unquote(text: string, q: char): Option<(string, string)> {
    if text == "" || text[0] != q then None else ReadEscaped(text[1..], q)
  }

  lemma {:induction false} EscapedFromFront(value: string, q: char)
    requires value != ""
    ensures Escaped(value, q) == EscapedRune(value[0], q) + Escaped(value[1..], q)
  {
    hide EscapedRune;
    var init, tail, last := value[..|value| - 1], value[1..], value[|value| - 1];
    if |value| > 1 {
      EscapedFromFront(init, q);
      assert init[1..] == tail[..|tail| - 1] && tail[|tail| - 1] == last;
      assert (EscapedRune(value[0], q) + Escaped(init[1..], q)) + EscapedRune(last, q)
          == EscapedRune(value[0], q) + (Escaped(init[1..], q) + EscapedRune(last, q));
    } else {
      assert init == "" && tail == "";
    }
  }

  lemma {:induction false} ReadEscapedOfEscaped(value: string, q: char, rest: string)
    requires q != ESCAPE
    ensures ReadEscaped(Escaped(value, q) + [q] + rest, q) == Some((value, rest))
  {
    var text := Escaped(value, q) + [q] + rest;
    if value == "" {
      assert text[1..] == rest;
    } else {
      EscapedFromFront(value, q);
      ReadEscapedOfEscaped(value[1..], q, rest);
      var head := EscapedRune(value[0], q);
      assert text == head + (Escaped(value[1..], q) + [q] + rest);
      assert text[|head|..] == Escaped(value[1..], q) + [q] + rest;
      assert value == [value[0]] + value[1..];
    }
  }

  /** Reading undoes quoting, whatever follows. */
  lemma UnquoteInvertsQuoted(value: string, q: char, rest: string)
    requires q != ESCAPE
    ensures Unquote(Quoted(value, q) + rest, q) == Some((value, rest))
  {
    var text := Quoted(value, q) + rest;
    assert text[1..] == Escaped(value, q) + [q] + rest;
    ReadEscapedOfEscaped(value, q, rest);
  }

  function RuneLength(text: string): nat
    requires text != ""
  {
    if text[0] != ESCAPE || |text| < 2 then 1 else 2
  }

  /** One rune of what is read. */
  lemma ReadEscapedStep(text: string, q: char)
    requires ReadEscaped(text, q).Some? && text[0] != q
    ensures var n := RuneLength(text);
      && ReadEscaped(text[n..], q).Some?
      && ReadEscaped(text, q).value.0 == [text[n - 1]] + ReadEscaped(text[n..], q).value.0
      && ReadEscaped(text, q).value.1 == ReadEscaped(text[n..], q).value.1
      && text == EscapedRune(text[n - 1], q) + text[n..]
  {
  }

  lemma ReadEscapedEnd(text: string, q: char)
    requires text != "" && text[0] == q
    ensures ReadEscaped(text, q) == Some(("", text[1..])) && text == Escaped("", q) + [q] + text[1..]
  {
    assert text == [q] + text[1..];
  }

  lemma {:induction false} ReadEscapedIsExact(text: string, q: char)
    requires ReadEscaped(text, q).Some?
    ensures text == Escaped(ReadEscaped(text, q).value.0, q) + [q] + ReadEscaped(text, q).value.1
    decreases |text|
  {
    assert text != "";
    hide ReadEscaped, EscapedRune, Escaped;
    var (value, rest) := ReadEscaped(text, q).value;
    if text[0] == q {
      ReadEscapedEnd(text, q);
    } else {
      ReadEscapedStep(text, q);
      var n := RuneLength(text);
      var inner := ReadEscaped(text[n..], q).value.0;
      ReadEscapedIsExact(text[n..], q);
      EscapedSplits(value, q, inner);
      ghost var head, tail := EscapedRune(text[n - 1], q), Escaped(inner, q);
      assert head + (tail + [q] + rest) == (head + tail) + [q] + rest;
    }
  }

  lemma EscapedSplits(value: string, q: char, tail: string)
    requires value != "" && value == [value[0]] + tail
    ensures Escaped(value, q) == EscapedRune(value[0], q) + Escaped(tail, q)
  {
    EscapedFromFront(value, q);
    assert value[1..] == tail;
  }

  /** Only quoted texts are read: the reader accepts nothing that quoting does not write. */
  lemma UnquoteIsExact(text: string, q: char)
    requires Unquote(text, q).Some?
    ensures text == Quoted(Unquote(text, q).value.0, q) + Unquote(text, q).value.1
  {
    ReadEscapedIsExact(text[1..], q);
    assert text == [q] + text[1..];
  }

  /** Where one quoted text ends and what it means is determined by the text itself. */
  ghost predicate PrefixDecodable(q: char) {
    forall v: string, w: string, r: string, s: string ::
      Quoted(v, q) + r == Quoted(w, q) + s ==> v == w && r == s
  }

  /** Quoting is prefix-decodable exactly for quotation marks other than the escape itself. */
  lemma QuotedIsPrefixDecodable(q: char)
    ensures PrefixDecodable(q) <==> q != ESCAPE
  {
    if q != ESCAPE {
      forall v: string, w: string, r: string, s: string | Quoted(v, q) + r == Quoted(w, q) + s
        ensures v == w && r == s
      {
        UnquoteInvertsQuoted(v, q, r);
        UnquoteInvertsQuoted(w, q, s);
      }
    } else {
      var one: string := [ESCAPE];
      assert one[..0] == "";
      assert Quoted("", q) + Quoted("", q) == Quoted(one, q) + "";
    }
  }
}
