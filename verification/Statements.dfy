/**
 The INSERT statement of the database stores: how it is written, a reader for exactly that
 language, and what statement text and parameter list say together.
 */
module Statements {
  import opened Wrappers
  import opened Decimals
  import opened Quoting
  import opened Utils
  import opened Schema

  const MARK: char := '"'
  const HEAD: string := "INSERT INTO "
  const COLUMNS: string := " ("
  const VALUES: string := ") VALUES ("
  const TAIL: string := ") RETURNING *"
  const COMMA: string := ", "

  /** A placeholder: `$n` for Postgres, `?` for SQLite. */
  datatype Slot = Numbered(n: nat) | Positional

  datatype Insert = Insert(table: string, columns: seq<string>, slots: seq<Slot>)

  function PrintSlot(slot: Slot): string {
    match slot
    case Numbered(n) => "$" + Decimal(n)
    case Positional => "?"
  }

  /** Parts with a separator between any two of them, as the loops of the stores write them. */
  function JoinWith(parts: seq<string>, sep: string): string {
    if parts == [] then ""
    else if |parts| == 1 then parts[0]
    else JoinWith(parts[..|parts| - 1], sep) + sep + parts[|parts| - 1]
  }

  function ColumnTexts(columns: seq<string>): seq<string> {
    seq(|columns|, i requires 0 <= i < |columns| => Quoted(columns[i], MARK))
  }

  function SlotTexts(slots: seq<Slot>): seq<string> {
    seq(|slots|, i requires 0 <= i < |slots| => PrintSlot(slots[i]))
  }

  function Print(s: Insert): string {
    HEAD + Quoted(s.table, MARK) + COLUMNS + JoinWith(ColumnTexts(s.columns), COMMA)
    + VALUES + JoinWith(SlotTexts(s.slots), COMMA) + TAIL
  }

  // ---------------------------------------------------------------- writing

  method Keys(fields: map<string, Value>) returns (keys: seq<string>)
    ensures Ordering(keys, fields.Keys)
  {
    keys := [];
    var remaining := fields.Keys;
    while remaining != {}
      invariant remaining <= fields.Keys
      invariant Ordering(keys, fields.Keys - remaining)
      decreases remaining
    {
      var k :| k in remaining;
      assert k !in keys;
      remaining := remaining - {k};
      keys := keys + [k];
    }
  }

  lemma JoinSnoc(parts: seq<string>, sep: string, i: nat)
    requires i < |parts|
    ensures JoinWith(parts[..i + 1], sep) == (if i == 0 then "" else JoinWith(parts[..i], sep) + sep) + parts[i]
  {
    assert parts[..i + 1][..i] == parts[..i];
  }

  lemma JoinNothing(parts: seq<string>, sep: string)
    ensures JoinWith(parts[..0], sep) == ""
  {
  }

  /** Head, table and column list, common to both stores. */
  method WriteColumns(query: Builder, table: string, keys: seq<string>)
    modifies query
    ensures query.text == old(query.text) + HEAD + Quoted(table, MARK) + COLUMNS
                              + JoinWith(ColumnTexts(keys), COMMA) + VALUES
  {
    hide JoinWith, Quoted;
    query.WriteString(HEAD);
    QuoteBuilder(query, table, MARK);
    query.WriteString(COLUMNS);
    ghost var start := query.text;
    ghost var parts := ColumnTexts(keys);
    JoinNothing(parts, COMMA);
    for i := 0 to |keys|
      invariant query.text == start + JoinWith(parts[..i], COMMA)
    {
      JoinSnoc(parts, COMMA, i);
      if i > 0 {
        query.WriteString(COMMA);
      }
      QuoteBuilder(query, keys[i], MARK);
    }
    assert parts[..|keys|] == parts;
    query.WriteString(VALUES);
  }

  function DollarSlots(n: nat): seq<Slot> {
    seq(n, i requires 0 <= i < n => Numbered(i + 1))
  }

  function QuestionSlots(n: nat): seq<Slot> {
    seq(n, i => Positional)
  }

  function ValuesInOrder(keys: seq<string>, fields: map<string, Value>): seq<Value>
    requires forall k | k in keys :: k in fields
  {
    seq(|keys|, i requires 0 <= i < |keys| => fields[keys[i]])
  }

  method WriteDollarSlots(query: Builder, keys: seq<string>, fields: map<string, Value>) returns (params: seq<Value>)
    requires forall k | k in keys :: k in fields
    modifies query
    ensures query.text == old(query.text) + JoinWith(SlotTexts(DollarSlots(|keys|)), COMMA)
    ensures params == ValuesInOrder(keys, fields)
  {
    hide JoinWith, Decimal;
    params := [];
    ghost var start := query.text;
    ghost var parts := SlotTexts(DollarSlots(|keys|));
    JoinNothing(parts, COMMA);
    for i := 0 to |keys|
      invariant query.text == start + JoinWith(parts[..i], COMMA)
      invariant params == ValuesInOrder(keys, fields)[..i]
    {
      JoinSnoc(parts, COMMA, i);
      if i > 0 {
        query.WriteString(COMMA);
      }
      query.WriteRune('$');
      query.WriteString(Decimal(i + 1));
      assert parts[i] == "$" + Decimal(i + 1);
      params := params + [fields[keys[i]]];
    }
    assert parts[..|keys|] == parts;
  }

  /** What the Postgres store may execute: any order of the keys will do. */
  ghost predicate PostgresInsert(table: string, fields: map<string, Value>, text: string, params: seq<Value>) {
    exists keys: seq<string> ::
      && Ordering(keys, fields.Keys)
      && text == Print(Insert(table, keys, DollarSlots(|keys|))) && params == ValuesInOrder(keys, fields)
  }

  method PostgresStatement(table: string, fields: map<string, Value>) returns (text: string, params: seq<Value>)
    ensures PostgresInsert(table, fields, text, params)
  {
    hide JoinWith, Quoted, SlotTexts, ColumnTexts, DollarSlots, ValuesInOrder, NoRepeats;
    var query := new Builder();
    var keys := Keys(fields);
    WriteColumns(query, table, keys);
    params := WriteDollarSlots(query, keys, fields);
    query.WriteString(TAIL);
    text := query.text;
    assert Ordering(keys, fields.Keys) && text == Print(Insert(table, keys, DollarSlots(|keys|)));
  }

  // ---------------------------------------------------------------- SQLite lists

  /** How floats, times and nested lists print is left to the formatting library. */
  type Formatter = Value -> string

  function Sprint(value: Value, other: Formatter): string {
    match value
    case StringValue(text) => text
    case IntegerValue(n) => Integer(n)
    case BooleanValue(flag) => if flag then "true" else "false"
    case _ => other(value)
  }

  function Texts(items: seq<Value>, other: Formatter): seq<string> {
    seq(|items|, i requires 0 <= i < |items| => Sprint(items[i], other))
  }

  method JoinIterable(items: seq<Value>, sep: string, other: Formatter) returns (text: string)
    ensures text == JoinWith(Texts(items, other), sep)
  {
    var out := new Builder();
    ghost var parts := Texts(items, other);
    for i := 0 to |items|
      invariant out.text == JoinWith(parts[..i], sep)
    {
      assert parts[..i + 1][..i] == parts[..i];
      if i > 0 {
        out.WriteString(sep);
      }
      out.WriteString(Sprint(items[i], other));
    }
    assert parts[..|items|] == parts;
    text := out.text;
  }

  /** What SQLite gets for a value: lists become one text. */
  datatype Param = Plain(value: Value) | Flat(text: string)

  function Flattened(value: Value, other: Formatter): Param {
    if value.ListValue? then Flat(JoinWith(Texts(value.items, other), ",")) else Plain(value)
  }

  function FlattenedInOrder(keys: seq<string>, fields: map<string, Value>, other: Formatter): seq<Param>
    requires forall k | k in keys :: k in fields
  {
    seq(|keys|, i requires 0 <= i < |keys| => Flattened(fields[keys[i]], other))
  }

  method WriteQuestionSlots(query: Builder, keys: seq<string>, fields: map<string, Value>, other: Formatter)
    returns (params: seq<Param>)
    requires forall k | k in keys :: k in fields
    modifies query
    ensures query.text == old(query.text) + JoinWith(SlotTexts(QuestionSlots(|keys|)), COMMA)
    ensures params == FlattenedInOrder(keys, fields, other)
  {
    hide JoinWith, Decimal;
    params := [];
    ghost var start := query.text;
    ghost var parts := SlotTexts(QuestionSlots(|keys|));
    JoinNothing(parts, COMMA);
    for i := 0 to |keys|
      invariant query.text == start + JoinWith(parts[..i], COMMA)
      invariant params == FlattenedInOrder(keys, fields, other)[..i]
    {
      JoinSnoc(parts, COMMA, i);
      if i > 0 {
        query.WriteString(COMMA);
      }
      query.WriteRune('?');
      var value := fields[keys[i]];
      if value.ListValue? {
        var joined := JoinIterable(value.items, ",", other);
        params := params + [Flat(joined)];
      } else {
        params := params + [Plain(value)];
      }
    }
    assert parts[..|keys|] == parts;
  }

  /** What the SQLite store may execute. */
  ghost predicate SQLiteInsert(table: string, fields: map<string, Value>, other: Formatter,
                               text: string, params: seq<Param>) {
    exists keys: seq<string> ::
      && Ordering(keys, fields.Keys)
      && text == Print(Insert(table, keys, QuestionSlots(|keys|))) && params == FlattenedInOrder(keys, fields, other)
  }

  method SQLiteStatement(table: string, fields: map<string, Value>, other: Formatter)
    returns (text: string, params: seq<Param>)
    ensures SQLiteInsert(table, fields, other, text, params)
  {
    hide JoinWith, Quoted, SlotTexts, ColumnTexts, QuestionSlots, FlattenedInOrder, NoRepeats;
    var query := new Builder();
    var keys := Keys(fields);
    WriteColumns(query, table, keys);
    params := WriteQuestionSlots(query, keys, fields, other);
    query.WriteString(TAIL);
    text := query.text;
    assert Ordering(keys, fields.Keys) && text == Print(Insert(table, keys, QuestionSlots(|keys|)));
  }

  // ---------------------------------------------------------------- reading

  function ReadSlot(text: string): Option<(Slot, string)> {
    if text == "" then None
    else if text[0] == '?' then Some((Positional, text[1..]))
    else if text[0] != '$' then None
    else
      var number := ReadDecimal(text[1..]);
      if number.None? then None else Some((Numbered(number.value.0), number.value.1))
  }

  /** Quoted names separated by commas, up to the closing parenthesis, which stays. */
  function ReadColumns(text: string): Option<(seq<string>, string)>
    decreases |text|
  {
    if text != "" && text[0] == ')' then Some(([], text)) else ReadSomeColumns(text)
  }

  function ReadSomeColumns(text: string): Option<(seq<string>, string)>
    decreases |text|
  {
    var first := Unquote(text, MARK);
    if first.None? || |first.value.1| >= |text| then None
    else
      var (name, behind) := first.value;
      if COMMA <= behind then
        var more := ReadSomeColumns(behind[|COMMA|..]);
        if more.None? then None else Some(([name] + more.value.0, more.value.1))
      else if behind != "" && behind[0] == ')' then Some(([name], behind))
      else None
  }

  function ReadSlots(text: string): Option<(seq<Slot>, string)>
    decreases |text|
  {
    if text != "" && text[0] == ')' then Some(([], text)) else ReadSomeSlots(text)
  }

  function ReadSomeSlots(text: string): Option<(seq<Slot>, string)>
    decreases |text|
  {
    var first := ReadSlot(text);
    if first.None? || |first.value.1| >= |text| then None
    else
      var (slot, behind) := first.value;
      if COMMA <= behind then
        var more := ReadSomeSlots(behind[|COMMA|..]);
        if more.None? then None else Some(([slot] + more.value.0, more.value.1))
      else if behind != "" && behind[0] == ')' then Some(([slot], behind))
      else None
  }

  function Read(text: string): Option<Insert> {
    var a := After(text, HEAD);
    if a.None? then None
    else
      var table := Unquote(a.value, MARK);
      if table.None? then None
      else
        var b := After(table.value.1, COLUMNS);
        if b.None? then None
        else
          var columns := ReadColumns(b.value);
          if columns.None? then None
          else
            var c := After(columns.value.1, VALUES);
            if c.None? then None
            else
              var slots := ReadSlots(c.value);
              if slots.None? || slots.value.1 != TAIL then None
              else Some(Insert(table.value.0, columns.value.0, slots.value.0))
  }
}
