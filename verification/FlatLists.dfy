/** SQLite has no lists: they are stored joined by commas. When splitting gets them back. */
module FlatLists {
  import opened QueryEncoding
  import opened Decimals
  import opened Utils
  import opened Schema
  import opened SchemaTheorems
  import opened Statements
  import opened StatementTheorems

  const SEP: string := ","

  /** Splitting at every comma, which always gives at least one part. */
  function Split(s: string): (parts: seq<string>)
    ensures parts != []
  {
    if s == "" then [""]
    else
      var parts := Split(s[1..]);
      if s[0] == ',' then [""] + parts else [[s[0]] + parts[0]] + parts[1..]
  }

  /** A stored list: the empty text is the empty list. */
  function ReadList(s: string): seq<string> {
    if s == "" then [] else Split(s)
  }

  lemma {:induction false} SplitHead(t: string, rest: string)
    requires ',' !in t
    ensures Split(t) == [t]
    ensures Split(t + (SEP + rest)) == [t] + Split(rest)
  {
    if t == "" {
      assert t + (SEP + rest) == SEP + rest;
      assert (SEP + rest)[1..] == rest;
    } else {
      SplitHead(t[1..], rest);
      assert (t + (SEP + rest))[1..] == t[1..] + (SEP + rest);
      assert t == [t[0]] + t[1..];
    }
  }

  lemma {:induction false} SplitJoined(texts: seq<string>)
    requires texts != [] && forall i | 0 <= i < |texts| :: ',' !in texts[i]
    ensures Split(JoinWith(texts, SEP)) == texts
  {
    if |texts| == 1 {
      SplitHead(texts[0], "");
      assert texts == [texts[0]];
    } else {
      JoinFromFront(texts, SEP);
      SplitJoined(texts[1..]);
      SplitHead(texts[0], JoinWith(texts[1..], SEP));
      assert texts[0] + SEP + JoinWith(texts[1..], SEP) == texts[0] + (SEP + JoinWith(texts[1..], SEP));
      assert texts == [texts[0]] + texts[1..];
    }
  }

  function Commas(s: string): nat {
    if s == "" then 0 else (if s[0] == ',' then 1 else 0) + Commas(s[1..])
  }

  lemma {:induction false} CommasOfConcat(s: string, t: string)
    ensures Commas(s + t) == Commas(s) + Commas(t)
  {
    if s == "" {
      assert s + t == t;
    } else {
      assert (s + t)[1..] == s[1..] + t;
      CommasOfConcat(s[1..], t);
    }
  }

  lemma {:induction false} PartsAreCommas(s: string)
    ensures |Split(s)| == Commas(s) + 1
    ensures Commas(s) > 0 <==> ',' in s
  {
    if s != "" {
      PartsAreCommas(s[1..]);
      assert s == [s[0]] + s[1..];
    }
  }

  lemma {:induction false} CommasOfJoined(texts: seq<string>)
    requires texts != []
    ensures Commas(JoinWith(texts, SEP)) >= |texts| - 1
    ensures (exists i :: 0 <= i < |texts| && ',' in texts[i]) ==> Commas(JoinWith(texts, SEP)) > |texts| - 1
  {
    var n := |texts| - 1;
    PartsAreCommas(texts[n]);
    if n > 0 {
      var init := texts[..n];
      CommasOfJoined(init);
      CommasOfConcat(JoinWith(init, SEP) + SEP, texts[n]);
      CommasOfConcat(JoinWith(init, SEP), SEP);
      assert Commas(SEP) == 1;
      if i :| 0 <= i < |texts| && ',' in texts[i] {
        assert i < n ==> ',' in init[i];
      }
    }
  }

  lemma {:induction false} JoinedNotEmpty(texts: seq<string>)
    requires texts != [] && forall i | 0 <= i < |texts| :: texts[i] != ""
    ensures JoinWith(texts, SEP) != ""
  {
  }

  /** A list of non-empty texts is read back exactly when none of them holds a comma. */
  lemma FlatListReads(texts: seq<string>)
    requires forall i | 0 <= i < |texts| :: texts[i] != ""
    ensures ReadList(JoinWith(texts, SEP)) == texts <==> forall i | 0 <= i < |texts| :: ',' !in texts[i]
  {
    if texts != [] {
      JoinedNotEmpty(texts);
      if forall i | 0 <= i < |texts| :: ',' !in texts[i] {
        SplitJoined(texts);
      } else {
        CommasOfJoined(texts);
        PartsAreCommas(JoinWith(texts, SEP));
      }
    }
  }

  // ---------------------------------------------------------------- the lists of the form parser

  lemma TrimmedNotEmpty(lib: Library, field: Field, value: Bytes, loc: Location)
    requires !Blank(value) && CheckText(lib, field, TrimSpace(value), loc).Success?
    ensures var v := CheckText(lib, field, TrimSpace(value), loc).value;
      && (field.typ == TString || field.typ == Unset ==> v == StringValue(TrimSpace(value)) && TrimSpace(value) != [])
      && (field.typ == TInteger ==> v.IntegerValue?)
      && (field.typ == TBoolean ==> v.BooleanValue?)
  {
  }

  lemma SprintInteger(n: int)
    ensures Integer(n) != "" && ',' !in Integer(n)
  {
    DecimalDenotes(if n < 0 then -n else n);
  }

  /**
   A list stored by the form parser comes back from its SQLite text: always for integers
   and booleans, and for texts exactly when no stored text holds a comma. The empty list
   needs no exception because the parser never stores a blank text.
   */
  lemma StoredListReads(lib: Library, field: Field, loc: Location, ctx: RequestContext,
                        items: seq<Value>, other: Formatter)
    requires field.multiple && FieldOutcome(lib, field, loc, ctx) == Stored(ListValue(items))
    requires field.typ != TFloat && field.typ != TDate && field.typ != TDateTime
    ensures ReadList(JoinWith(Texts(items, other), SEP)) == Texts(items, other)
       <==> (field.typ == TString || field.typ == Unset ==>
             forall i | 0 <= i < |items| :: items[i].StringValue? && ',' !in items[i].text)
  {
    hide FieldOutcome, TrimSpace, CheckText, ReadList, JoinWith;
    FieldVerdict(lib, field, loc, ctx);
    StoredTexts(lib, field, Submitted(field, ctx).value, loc, items, other);
    FlatListReads(Texts(items, other));
  }

  lemma StoredTexts(lib: Library, field: Field, raw: seq<Bytes>, loc: Location, items: seq<Value>, other: Formatter)
    requires field.multiple && StoredFrom(lib, field, raw, loc, ListValue(items))
    requires field.typ != TFloat && field.typ != TDate && field.typ != TDateTime
    ensures forall i | 0 <= i < |items| ::
              && Texts(items, other)[i] != ""
              && (field.typ == TString || field.typ == Unset ==>
                    items[i].StringValue? && Texts(items, other)[i] == items[i].text)
              && (field.typ == TInteger || field.typ == TBoolean ==> ',' !in Texts(items, other)[i])
  {
    var kept := NonBlank(FirstOccurrences(raw));
    forall i | 0 <= i < |items|
      ensures Texts(items, other)[i] != ""
      ensures field.typ == TString || field.typ == Unset ==>
                items[i].StringValue? && Texts(items, other)[i] == items[i].text
      ensures field.typ == TInteger || field.typ == TBoolean ==> ',' !in Texts(items, other)[i]
    {
      NonBlankHasNoBlank(FirstOccurrences(raw), i);
      TrimmedNotEmpty(lib, field, kept[i], loc);
      if field.typ == TInteger {
        SprintInteger(items[i].number);
      }
    }
  }

  lemma NonBlankHasNoBlank(values: seq<Bytes>, i: nat)
    requires i < |NonBlank(values)|
    ensures !Blank(NonBlank(values)[i])
  {
    var keep := (v: Bytes) => !Blank(v);
    assert NonBlank(values) == Filter(values, keep);
    FilterMeaning(values, keep);
    assert NonBlank(values)[i] in Filter(values, keep);
  }

  /**
   What SQLite is given for one field: the value as it is, and for a list of non-empty texts
   one text from which the list is read back exactly when no text holds a comma.
   */
  lemma SQLiteParam(fields: map<string, Value>, k: string, other: Formatter)
    requires k in fields
    ensures var p := FlattenedMap(fields, other)[k];
      match fields[k]
      case ListValue(items) =>
        var texts := Texts(items, other);
        && p.Flat?
        && ((forall i | 0 <= i < |texts| :: texts[i] != "") ==>
              (ReadList(p.text) == texts <==> forall i | 0 <= i < |texts| :: ',' !in texts[i]))
      case _ => p == Plain(fields[k])
  {
    hide ReadList, JoinWith;
    if fields[k].ListValue? {
      var texts := Texts(fields[k].items, other);
      if forall i | 0 <= i < |texts| :: texts[i] != "" {
        FlatListReads(texts);
      }
    }
  }
}
