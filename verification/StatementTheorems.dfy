/** Writing and reading INSERT statements undo each other, and the parameters denote the stored map. */
module StatementTheorems {
  import opened Wrappers
  import opened Decimals
  import opened Quoting
  import opened Utils
  import opened Schema
  import opened Statements

  lemma {:induction false} JoinFromFront(parts: seq<string>, sep: string)
    requires |parts| > 1
    ensures JoinWith(parts, sep) == parts[0] + sep + JoinWith(parts[1..], sep)
  {
    var init, rest, last := parts[..|parts| - 1], parts[1..], parts[|parts| - 1];
    assert rest[|rest| - 1] == last;
    if |parts| > 2 {
      JoinFromFront(init, sep);
      assert init[1..] == rest[..|rest| - 1];
      JoinStep(parts, sep);
      JoinStep(rest, sep);
      hide JoinWith;
      ghost var a, b := parts[0] + sep, JoinWith(init[1..], sep);
      assert (a + b) + sep + last == a + (b + sep + last);
    } else {
      assert init == [parts[0]] && rest == [last];
    }
  }

  lemma JoinStep(parts: seq<string>, sep: string)
    requires |parts| > 1
    ensures JoinWith(parts, sep) == JoinWith(parts[..|parts| - 1], sep) + sep + parts[|parts| - 1]
  {
  }

  lemma Associate(a: string, b: string, c: string, d: string)
    ensures (a + b + c) + d == a + (b + (c + d))
  {
  }

  /** The first part of a list, the separator, and the list of the others. */
  lemma JoinThen(parts: seq<string>, rest: string)
    requires |parts| > 1
    ensures JoinWith(parts, COMMA) + rest == parts[0] + (COMMA + (JoinWith(parts[1..], COMMA) + rest))
  {
    hide JoinWith;
    JoinFromFront(parts, COMMA);
    Associate(parts[0], COMMA, JoinWith(parts[1..], COMMA), rest);
  }

  // ---------------------------------------------------------------- reading what was written

  lemma ReadColumnThen(name: string, more: string)
    requires ReadSomeColumns(more).Some?
    ensures ReadSomeColumns(Quoted(name, MARK) + (COMMA + more))
         == Some(([name] + ReadSomeColumns(more).value.0, ReadSomeColumns(more).value.1))
  {
    UnquoteInvertsQuoted(name, MARK, COMMA + more);
    assert (COMMA + more)[|COMMA|..] == more;
    assert |Quoted(name, MARK)| > 0;
    hide Quoted, Unquote;
  }

  lemma {:induction false} ReadSomeColumnsBack(columns: seq<string>, rest: string)
    requires columns != [] && rest != "" && rest[0] == ')'
    ensures ReadSomeColumns(JoinWith(ColumnTexts(columns), COMMA) + rest) == Some((columns, rest))
  {
    var parts := ColumnTexts(columns);
    if |columns| == 1 {
      UnquoteInvertsQuoted(columns[0], MARK, rest);
      assert columns == [columns[0]];
    } else {
      ReadSomeColumnsBack(columns[1..], rest);
      JoinThen(parts, rest);
      assert parts[1..] == ColumnTexts(columns[1..]);
      ReadColumnThen(columns[0], JoinWith(parts[1..], COMMA) + rest);
      hide ReadSomeColumns, JoinWith, Quoted;
      assert columns == [columns[0]] + columns[1..];
    }
  }

  lemma ReadColumnsBack(columns: seq<string>, rest: string)
    requires rest != "" && rest[0] == ')'
    ensures ReadColumns(JoinWith(ColumnTexts(columns), COMMA) + rest) == Some((columns, rest))
  {
    var text := JoinWith(ColumnTexts(columns), COMMA) + rest;
    if columns == [] {
      assert text == rest;
    } else {
      ReadSomeColumnsBack(columns, rest);
    }
  }

  lemma ReadSlotBack(slot: Slot, rest: string)
    requires rest == "" || !IsDigit(rest[0])
    ensures ReadSlot(PrintSlot(slot) + rest) == Some((slot, rest))
  {
    if slot.Numbered? {
      assert (PrintSlot(slot) + rest)[1..] == Decimal(slot.n) + rest;
      ReadDecimalOfDecimal(slot.n, rest);
    }
  }

  lemma ReadSlotThen(slot: Slot, more: string)
    requires ReadSomeSlots(more).Some?
    ensures ReadSomeSlots(PrintSlot(slot) + (COMMA + more))
         == Some(([slot] + ReadSomeSlots(more).value.0, ReadSomeSlots(more).value.1))
  {
    ReadSlotBack(slot, COMMA + more);
    assert (COMMA + more)[|COMMA|..] == more;
    assert |PrintSlot(slot)| > 0;
    hide PrintSlot, ReadSlot;
  }

  lemma {:induction false} ReadSomeSlotsBack(slots: seq<Slot>, rest: string)
    requires slots != [] && rest != "" && rest[0] == ')'
    ensures ReadSomeSlots(JoinWith(SlotTexts(slots), COMMA) + rest) == Some((slots, rest))
  {
    var parts := SlotTexts(slots);
    if |slots| == 1 {
      ReadSlotBack(slots[0], rest);
      assert slots == [slots[0]];
    } else {
      ReadSomeSlotsBack(slots[1..], rest);
      JoinThen(parts, rest);
      assert parts[1..] == SlotTexts(slots[1..]);
      ReadSlotThen(slots[0], JoinWith(parts[1..], COMMA) + rest);
      hide ReadSomeSlots, JoinWith, PrintSlot;
      assert slots == [slots[0]] + slots[1..];
    }
  }

  lemma ReadSlotsBack(slots: seq<Slot>, rest: string)
    requires rest != "" && rest[0] == ')'
    ensures ReadSlots(JoinWith(SlotTexts(slots), COMMA) + rest) == Some((slots, rest))
  {
    var text := JoinWith(SlotTexts(slots), COMMA) + rest;
    if slots == [] {
      assert text == rest;
    } else {
      ReadSomeSlotsBack(slots, rest);
    }
  }

  /** Every statement is read back as it was meant. */
  lemma ReadPrint(s: Insert)
    ensures Read(Print(s)) == Some(s)
  {
    hide JoinWith, Quoted, ColumnTexts, SlotTexts, Unquote, After, ReadColumns, ReadSlots;
    ghost var e := JoinWith(SlotTexts(s.slots), COMMA) + TAIL;
    ghost var d := VALUES + e;
    ghost var c := JoinWith(ColumnTexts(s.columns), COMMA) + d;
    ghost var b := COLUMNS + c;
    ghost var a := Quoted(s.table, MARK) + b;
    assert Print(s) == HEAD + a;
    AfterToken(HEAD, a);
    UnquoteInvertsQuoted(s.table, MARK, b);
    AfterToken(COLUMNS, c);
    ReadColumnsBack(s.columns, d);
    AfterToken(VALUES, e);
    ReadSlotsBack(s.slots, TAIL);
  }

  // ---------------------------------------------------------------- writing what was read

  ghost predicate ColumnThen(text: string, more: string) {
    && ReadSomeColumns(text).Some? && ReadSomeColumns(text).value.0 != [] && |more| < |text|
    && ReadSomeColumns(more) == Some((ReadSomeColumns(text).value.0[1..], ReadSomeColumns(text).value.1))
    && text == Quoted(ReadSomeColumns(text).value.0[0], MARK) + (COMMA + more)
  }

  ghost predicate SlotThen(text: string, more: string) {
    && ReadSomeSlots(text).Some? && ReadSomeSlots(text).value.0 != [] && |more| < |text|
    && ReadSomeSlots(more) == Some((ReadSomeSlots(text).value.0[1..], ReadSomeSlots(text).value.1))
    && text == PrintSlot(ReadSomeSlots(text).value.0[0]) + (COMMA + more)
  }

  /** The list that was read, taken apart: one name, then the end or a comma and more. */
  lemma ReadColumnsStep(text: string)
    requires ReadSomeColumns(text).Some?
    ensures var (columns, rest) := ReadSomeColumns(text).value;
      columns != []
      && ((|columns| == 1 && text == Quoted(columns[0], MARK) + rest) || exists more: string :: ColumnThen(text, more))
  {
    UnquoteIsExact(text, MARK);
    var (columns, rest) := ReadSomeColumns(text).value;
    var (name, behind) := Unquote(text, MARK).value;
    hide Quoted, Unquote;
    if COMMA <= behind {
      var more := behind[|COMMA|..];
      assert behind == COMMA + more;
      assert columns[1..] == ReadSomeColumns(more).value.0;
      assert ColumnThen(text, more);
    }
  }

  lemma {:induction false} ReadSomeColumnsIsExact(text: string)
    requires ReadSomeColumns(text).Some?
    ensures ReadSomeColumns(text).value.0 != []
    ensures text == JoinWith(ColumnTexts(ReadSomeColumns(text).value.0), COMMA) + ReadSomeColumns(text).value.1
    decreases |text|
  {
    ReadColumnsStep(text);
    var (columns, rest) := ReadSomeColumns(text).value;
    var parts := ColumnTexts(columns);
    if more: string :| ColumnThen(text, more) {
      ReadSomeColumnsIsExact(more);
      JoinThen(parts, rest);
      hide ReadSomeColumns, JoinWith, Quoted;
      assert parts[1..] == ColumnTexts(columns[1..]);
    }
  }

  lemma ReadSlotIsExact(text: string)
    requires ReadSlot(text).Some?
    ensures text == PrintSlot(ReadSlot(text).value.0) + ReadSlot(text).value.1
  {
    if text[0] == '?' {
      assert text == "?" + text[1..];
    } else {
      assert text == "$" + text[1..];
    }
  }

  lemma ReadSlotsStep(text: string)
    requires ReadSomeSlots(text).Some?
    ensures var (slots, rest) := ReadSomeSlots(text).value;
      slots != []
      && ((|slots| == 1 && text == PrintSlot(slots[0]) + rest) || exists more: string :: SlotThen(text, more))
  {
    ReadSlotIsExact(text);
    var (slots, rest) := ReadSomeSlots(text).value;
    var (slot, behind) := ReadSlot(text).value;
    hide PrintSlot, ReadSlot;
    if COMMA <= behind {
      var more := behind[|COMMA|..];
      assert behind == COMMA + more;
      assert slots[1..] == ReadSomeSlots(more).value.0;
      assert SlotThen(text, more);
    }
  }

  lemma {:induction false} ReadSomeSlotsIsExact(text: string)
    requires ReadSomeSlots(text).Some?
    ensures ReadSomeSlots(text).value.0 != []
    ensures text == JoinWith(SlotTexts(ReadSomeSlots(text).value.0), COMMA) + ReadSomeSlots(text).value.1
    decreases |text|
  {
    ReadSlotsStep(text);
    var (slots, rest) := ReadSomeSlots(text).value;
    var parts := SlotTexts(slots);
    if more: string :| SlotThen(text, more) {
      ReadSomeSlotsIsExact(more);
      JoinThen(parts, rest);
      hide ReadSomeSlots, JoinWith, PrintSlot;
      assert parts[1..] == SlotTexts(slots[1..]);
    }
  }

  lemma ListsAreExact(text: string)
    ensures ReadColumns(text).Some? ==>
              text == JoinWith(ColumnTexts(ReadColumns(text).value.0), COMMA) + ReadColumns(text).value.1
    ensures ReadSlots(text).Some? ==>
              text == JoinWith(SlotTexts(ReadSlots(text).value.0), COMMA) + ReadSlots(text).value.1
  {
    if !(text != "" && text[0] == ')') {
      if ReadColumns(text).Some? {
        ReadSomeColumnsIsExact(text);
      }
      if ReadSlots(text).Some? {
        ReadSomeSlotsIsExact(text);
      }
    }
  }

  lemma Flatten(a: string, b: string, c: string, d: string, e: string, f: string, g: string)
    ensures a + (b + (c + (d + (e + (f + g))))) == a + b + c + d + e + f + g
  {
  }

  /** The reader accepts statements only: whatever it reads prints to the same text. */
  lemma PrintRead(text: string)
    requires Read(text).Some?
    ensures Print(Read(text).value) == text
  {
    hide JoinWith, Quoted, ColumnTexts, SlotTexts, Unquote, ReadColumns, ReadSlots;
    var a := After(text, HEAD).value;
    var table := Unquote(a, MARK).value;
    var b := After(table.1, COLUMNS).value;
    var columns := ReadColumns(b).value;
    var c := After(columns.1, VALUES).value;
    var slots := ReadSlots(c).value;
    ReadTo(text, a, b, c);
    UnquoteIsExact(a, MARK);
    ListsAreExact(b);
    ListsAreExact(c);
    Flatten(HEAD, Quoted(table.0, MARK), COLUMNS, JoinWith(ColumnTexts(columns.0), COMMA), VALUES,
            JoinWith(SlotTexts(slots.0), COMMA), TAIL);
  }

  lemma ReadTo(text: string, a: string, b: string, c: string)
    requires Read(text).Some? && After(text, HEAD) == Some(a)
    requires After(Unquote(a, MARK).value.1, COLUMNS) == Some(b)
    requires After(ReadColumns(b).value.1, VALUES) == Some(c)
    ensures text == HEAD + a && Unquote(a, MARK).value.1 == COLUMNS + b && ReadColumns(b).value.1 == VALUES + c
    ensures ReadSlots(c).Some? && ReadSlots(c).value.1 == TAIL
    ensures Read(text) == Some(Insert(Unquote(a, MARK).value.0, ReadColumns(b).value.0, ReadSlots(c).value.0))
  {
    hide Quoted, Unquote, ReadColumns, ReadSlots;
  }

  // ---------------------------------------------------------------- what a statement stores

  /** The parameter that a placeholder at position `j` stands for. */
  function SlotIndex(slot: Slot, j: nat): int {
    match slot
    case Numbered(n) => n - 1
    case Positional => j
  }

  /** Executing the statement with the parameters puts exactly `record` into a row. */
  ghost predicate Binds<T>(s: Insert, params: seq<T>, record: map<string, T>) {
    && NoRepeats(s.columns) && |s.slots| == |s.columns|
    && (forall c :: c in record <==> c in s.columns)
    && forall j | 0 <= j < |s.columns| ::
         && 0 <= SlotIndex(s.slots[j], j) < |params|
         && s.columns[j] in record && record[s.columns[j]] == params[SlotIndex(s.slots[j], j)]
  }

  lemma BindsOneRecord<T>(s: Insert, params: seq<T>, a: map<string, T>, b: map<string, T>)
    requires Binds(s, params, a) && Binds(s, params, b)
    ensures a == b
  {
    forall c | c in a ensures c in b && a[c] == b[c] {
      var j :| 0 <= j < |s.columns| && s.columns[j] == c;
    }
  }

  /** For every order of the keys: the text reads as this very statement, and the parameters fill exactly the fields. */
  lemma PostgresReads(table: string, fields: map<string, Value>, keys: seq<string>)
    requires Ordering(keys, fields.Keys)
    ensures var s := Insert(table, keys, DollarSlots(|keys|));
      Read(Print(s)) == Some(s) && Binds(s, ValuesInOrder(keys, fields), fields)
  {
    ReadPrint(Insert(table, keys, DollarSlots(|keys|)));
  }

  /** The Postgres statement means the map: reading it gives the table, and its parameters fill exactly the fields. */
  lemma PostgresMeans(table: string, fields: map<string, Value>, text: string, params: seq<Value>)
    requires PostgresInsert(table, fields, text, params)
    ensures Read(text).Some? && Read(text).value.table == table && Binds(Read(text).value, params, fields)
  {
    hide Print, Read;
    var keys: seq<string> :|
      && Ordering(keys, fields.Keys)
      && text == Print(Insert(table, keys, DollarSlots(|keys|))) && params == ValuesInOrder(keys, fields);
    PostgresReads(table, fields, keys);
  }

  function FlattenedMap(fields: map<string, Value>, other: Formatter): map<string, Param> {
    map k | k in fields :: Flattened(fields[k], other)
  }

  lemma SQLiteReads(table: string, fields: map<string, Value>, keys: seq<string>, other: Formatter)
    requires Ordering(keys, fields.Keys)
    ensures var s := Insert(table, keys, QuestionSlots(|keys|));
      Read(Print(s)) == Some(s) && Binds(s, FlattenedInOrder(keys, fields, other), FlattenedMap(fields, other))
  {
    ReadPrint(Insert(table, keys, QuestionSlots(|keys|)));
  }

  /** The SQLite statement means the map with its lists joined. */
  lemma SQLiteMeans(table: string, fields: map<string, Value>, other: Formatter, text: string, params: seq<Param>)
    requires SQLiteInsert(table, fields, other, text, params)
    ensures Read(text).Some? && Read(text).value.table == table
    ensures Binds(Read(text).value, params, FlattenedMap(fields, other))
  {
    hide Print, Read;
    var keys: seq<string> :|
      && Ordering(keys, fields.Keys)
      && text == Print(Insert(table, keys, QuestionSlots(|keys|))) && params == FlattenedInOrder(keys, fields, other);
    SQLiteReads(table, fields, keys, other);
  }

  /** Two submissions never give the same statement and parameters unless table and fields agree. */
  lemma PostgresInjective(text: string, params: seq<Value>, t1: string, f1: map<string, Value>,
                          t2: string, f2: map<string, Value>)
    requires PostgresInsert(t1, f1, text, params) && PostgresInsert(t2, f2, text, params)
    ensures t1 == t2 && f1 == f2
  {
    hide PostgresInsert, Read;
    PostgresMeans(t1, f1, text, params);
    PostgresMeans(t2, f2, text, params);
    BindsOneRecord(Read(text).value, params, f1, f2);
  }
}
