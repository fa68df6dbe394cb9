/** Texts written out in full: what the constants of the other modules amount to. */
module Examples {
  import opened Html
  import opened Session
  import opened Web
  import opened Engine
  import opened Quoting
  import opened Decimals
  import opened Statements
  import opened FileStore

  /** The names of the hidden inputs, and the session entries the handler knows. */
  lemma Names()
    ensures FORM_XSRF == "_xsrf" && PREFIX + ACCESS_CODE == "__accessCode"
    ensures PREFIX + FRESH == "__fresh" && PREFIX + TZ == "__tz" && TRUE == "true" && ACCESS_CODE == "accessCode"
  {
  }

  lemma HiddenInputWritten()
    ensures HiddenInput(PREFIX + TZ, "UTC") == "<input type=\"hidden\" name=\"__tz\" value=\"UTC\"/>"
  {
  }

  lemma EscapedFirst(c: char, rest: string, q: char)
    ensures Escaped([c] + rest, q) == EscapedRune(c, q) + Escaped(rest, q)
  {
    EscapedFromFront([c] + rest, q);
    assert ([c] + rest)[1..] == rest;
  }

  /** A backslash goes before each quotation mark and each backslash, and before nothing else. */
  lemma QuotedWritten()
    ensures Quoted("a`\\", '`') == "`a\\`\\\\`"
  {
    hide Escaped;
    NothingEscaped('`');
    EscapedFirst('\\', "", '`');
    EscapedFirst('`', "\\", '`');
    EscapedFirst('a', "`\\", '`');
    assert ['\\'] + "" == "\\" && ['`'] + "\\" == "`\\" && ['a'] + "`\\" == "a`\\";
    assert Escaped("\\", '`') == "\\\\";
    assert Escaped("`\\", '`') == "\\`\\\\";
  }

  lemma NothingEscaped(q: char)
    ensures Escaped("", q) == ""
  {
  }

  /** A statement for two columns. */
  lemma StatementWritten(table: string, a: string, b: string)
    ensures Print(Insert(table, [a, b], DollarSlots(2)))
         == "INSERT INTO " + Quoted(table, '"') + " (" + Quoted(a, '"') + ", " + Quoted(b, '"') + ") VALUES ("
            + "$1, $2" + ") RETURNING *"
    ensures Print(Insert(table, [a, b], QuestionSlots(2)))
         == "INSERT INTO " + Quoted(table, '"') + " (" + Quoted(a, '"') + ", " + Quoted(b, '"') + ") VALUES ("
            + "?, ?" + ") RETURNING *"
  {
    hide Quoted, JoinWith, Decimal;
    SlotsWritten();
    JoinTwo(Quoted(a, '"'), Quoted(b, '"'));
    JoinTwo("$1", "$2");
    JoinTwo("?", "?");
    assert ColumnTexts([a, b]) == [Quoted(a, '"'), Quoted(b, '"')];
    assert "$1" + ", " + "$2" == "$1, $2" && "?" + ", " + "?" == "?, ?";
  }

  lemma SlotsWritten()
    ensures SlotTexts(DollarSlots(2)) == ["$1", "$2"] && SlotTexts(QuestionSlots(2)) == ["?", "?"]
  {
    assert PrintSlot(Numbered(1)) == "$1" && PrintSlot(Numbered(2)) == "$2";
    assert SlotTexts(DollarSlots(2))[0] == PrintSlot(Numbered(1));
    assert SlotTexts(DollarSlots(2))[1] == PrintSlot(Numbered(2));
  }

  lemma JoinTwo(a: string, b: string)
    ensures JoinWith([a, b], ", ") == a + ", " + b
  {
    assert [a, b][..1] == [a];
  }

  lemma FileNamesWritten(id: string, random: nat)
    ensures TargetName(id) == id + ".json" && TempName(id, random) == id + ".json" + ".tmp." + Decimal(random)
  {
  }
}
