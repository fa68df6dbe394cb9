/**
 What a field makes of a request, said from its definition and the posted texts alone: the
 texts it looks at, the options it allows, and the value it makes of a text.
 */
module FieldValues {
  import opened Wrappers
  import opened QueryEncoding
  import opened FormValues
  import opened Decimals
  import opened Utils
  import opened Schema
  import opened SchemaTheorems
  import opened Statements

  // ---------------------------------------------------------------- white space

  /** The code points with the Unicode property White_Space; all of them have at most four hexadecimal digits. */
  predicate WhiteSpace(c: nat) {
    || 0x9 <= c <= 0xD || c == 0x20 || c == 0x85 || c == 0xA0 || c == 0x1680 || 0x2000 <= c <= 0x200A
    || c == 0x2028 || c == 0x2029 || c == 0x202F || c == 0x205F || c == 0x3000
  }

  function Utf8(c: nat): Bytes
    requires c < 0x1_0000
  {
    if c < 0x80 then [c as char]
    else if c < 0x800 then [(0xC0 + c / 0x40) as char, (0x80 + c % 0x40) as char]
    else [(0xE0 + c / 0x1000) as char, (0x80 + c / 0x40 % 0x40) as char, (0x80 + c % 0x40) as char]
  }

  /** Of the encoded characters exactly those with the property are trimmed, from either end. */
  lemma SpaceIsWhiteSpace(c: nat, before: Bytes, after: Bytes)
    requires c < 0x1_0000
    ensures var s, n := before + Utf8(c) + after, if WhiteSpace(c) then |Utf8(c)| else 0;
      SpaceAt(s, |before|) == n && SpaceBefore(s, |before|, |before| + |Utf8(c)|) == n
  {
    var s, i := before + Utf8(c) + after, |before|;
    assert forall k | 0 <= k < |Utf8(c)| :: s[i + k] == Utf8(c)[k];
    if c < 0x80 {
      assert s[i] == c as char;
    } else if c < 0x800 {
      assert s[i] == (0xC0 + c / 0x40) as char && s[i + 1] == (0x80 + c % 0x40) as char;
    } else {
      assert s[i] == (0xE0 + c / 0x1000) as char && s[i + 1] == (0x80 + c / 0x40 % 0x40) as char;
      assert s[i + 2] == (0x80 + c % 0x40) as char;
      ThreeBytes(c);
    }
  }

  lemma ThreeBytes(c: nat)
    requires 0x800 <= c < 0x1_0000
    ensures var a, b, d := 0xE0 + c / 0x1000, 0x80 + c / 0x40 % 0x40, 0x80 + c % 0x40;
      c == (a - 0xE0) * 0x1000 + (b - 0x80) * 0x40 + (d - 0x80)
  {
    assert c / 0x40 / 0x40 == c / 0x1000;
  }

  // ---------------------------------------------------------------- integers and booleans

  /** `text` is a decimal notation of the 64-bit number `n`, signed or not, leading zeros allowed. */
  ghost predicate Denotes(text: Bytes, n: int) {
    && IsInt64(n) && text != []
    && var signed := text[0] == '-' || text[0] == '+';
       var digits := if signed then text[1..] else text;
       digits != [] && DigitsValue(digits).Some? && n == (if text[0] == '-' then -1 else 1) * DigitsValue(digits).value
  }

  lemma {:induction false} ScanValue(s: string)
    ensures ScanDigits(s).Success? ==> DigitsValue(s) == Some(ScanDigits(s).value)
  {
    if s != "" {
      ScanValue(s[..|s| - 1]);
    }
  }

  lemma ParseIntMeaning(text: Bytes, n: int)
    ensures ParseInt(text) == Success(n) <==> Denotes(text, n)
  {
    if text != [] {
      var digits := if text[0] == '-' || text[0] == '+' then text[1..] else text;
      ScanValue(digits);
      if DigitsValue(digits).Some? {
        ScanDenotes(digits);
      }
    }
  }

  const TRUE_TEXTS: set<Bytes> := {"1", "t", "T", "true", "TRUE", "True"}
  const FALSE_TEXTS: set<Bytes> := {"0", "f", "F", "false", "FALSE", "False"}

  lemma ParseBoolMeaning(text: Bytes, b: bool)
    ensures ParseBool(text) == Success(b) <==> text in (if b then TRUE_TEXTS else FALSE_TEXTS)
  {
  }

  // ---------------------------------------------------------------- one text

  /** `value` is what a field makes of a trimmed text: the pattern holds and the type reads it so. */
  ghost predicate IsValueOf(lib: Library, field: Field, text: Bytes, loc: Location, value: Value) {
    && (field.typ.Unset? || field.typ.TString? ==> field.pattern == [] || lib.matches(field.pattern, text))
    && match field.typ
       case TInteger => value.IntegerValue? && Denotes(text, value.number)
       case TFloat => value.FloatValue? && lib.parseFloat(text) == Success(value.bits)
       case TBoolean => value.BooleanValue? && text in (if value.flag then TRUE_TEXTS else FALSE_TEXTS)
       case TDate => value.TimeValue? && lib.parseDate(text, loc) == Success(value.instant)
       case TDateTime => value.TimeValue? && lib.parseDateTime(text, loc) == Success(value.instant)
       case _ => value == StringValue(text)
  }

  lemma CheckTextMeaning(lib: Library, field: Field, text: Bytes, loc: Location, value: Value)
    ensures CheckText(lib, field, text, loc) == Success(value) <==> IsValueOf(lib, field, text, loc, value)
  {
    hide ParseInt, ParseBool, Denotes;
    match field.typ {
      case TInteger =>
        if value.IntegerValue? {
          ParseIntMeaning(text, value.number);
        }
      case TBoolean =>
        if value.BooleanValue? {
          ParseBoolMeaning(text, value.flag);
        }
      case _ =>
    }
  }

  /** Why a text is refused: the pattern first, then the type, with the reason of the library that reads it. */
  lemma RefusedText(lib: Library, field: Field, text: Bytes, loc: Location)
    requires CheckText(lib, field, text, loc).Failure?
    ensures var e := CheckText(lib, field, text, loc).error;
      if (field.typ.Unset? || field.typ.TString?) then
        field.pattern != [] && !lib.matches(field.pattern, text) && e == WrongPattern(field.pattern)
      else
        && e.InvalidSyntax?
        && (field.typ.TFloat? ==> lib.parseFloat(text) == Failure(e.reason))
        && (field.typ.TDate? ==> lib.parseDate(text, loc) == Failure(e.reason))
        && (field.typ.TDateTime? ==> lib.parseDateTime(text, loc) == Failure(e.reason))
        && (field.typ.TInteger? ==> ParseInt(text) == Failure(e.reason))
        && (field.typ.TBoolean? ==> e.reason == "invalid syntax")
  {
  }

  /** What is printed for a boolean or an integer of 64 bits is read as the same value again. */
  lemma PrintedIsRead(lib: Library, field: Field, value: Value, other: Formatter, loc: Location, text: Bytes)
    requires text == Sprint(value, other)
    requires (field.typ.TBoolean? && value.BooleanValue?) || (field.typ.TInteger? && value.IntegerValue?)
    ensures CheckText(lib, field, text, loc) == Success(value) <==> value.IntegerValue? ==> IsInt64(value.number)
  {
    hide ParseInt, Integer;
    if value.IntegerValue? {
      ParseIntReadsDecimal(value.number);
    }
  }

  // ---------------------------------------------------------------- options and raw texts

  /** A text is allowed if there are no options, or it is the value of one, or the label of one without value. */
  ghost predicate OptionAllows(field: Field, text: Bytes) {
    field.options == [] ||
    exists i | 0 <= i < |field.options| :: OptionIs(field.options[i], text)
  }

  predicate OptionIs(opt: Opt, text: Bytes) {
    if opt.value == [] then text == opt.caption else text == opt.value
  }

  lemma AllowedMeaning(field: Field, text: Bytes)
    ensures Allowed(field, text) <==> OptionAllows(field, text)
  {
    if field.options != [] {
      if opt :| opt in field.options && OptionText(opt) == text {
        var i :| 0 <= i < |field.options| && field.options[i] == opt;
      }
      if i :| 0 <= i < |field.options| && OptionIs(field.options[i], text) {
        assert field.options[i] in field.options && OptionText(field.options[i]) == text;
      }
    }
  }

  /**
   The texts that a field looks at: for a field the user cannot edit its default alone, else
   what was posted, and for a checkbox with a default and nothing posted the default.
   */
  ghost predicate RawTexts(field: Field, ctx: RequestContext, raw: seq<Bytes>) {
    if field.hidden || field.disabled then |raw| == 1 && field.default.String(ctx) == Success(raw[0])
    else if field.name in ctx.form && ctx.form[field.name] != [] then raw == ctx.form[field.name]
    else if field.typ.TBoolean? && field.default.Present? then
      |raw| == 1 && field.default.String(ctx) == Success(raw[0])
    else raw == []
  }

  /** The default is what the field looks at, and it fails to render. */
  ghost predicate DefaultFails(field: Field, ctx: RequestContext, reason: Bytes) {
    && field.default.String(ctx) == Failure(reason)
    && (field.hidden || field.disabled || (field.typ.TBoolean? && All(ctx.form, field.name) == []))
  }

  lemma SubmittedMeaning(field: Field, ctx: RequestContext)
    ensures forall raw :: Submitted(field, ctx) == Success(raw) <==> RawTexts(field, ctx, raw)
    ensures forall reason :: Submitted(field, ctx) == Failure(reason) <==> DefaultFails(field, ctx, reason)
  {
    forall raw ensures Submitted(field, ctx) == Success(raw) <==> RawTexts(field, ctx, raw) {
      assert |raw| == 1 ==> raw == [raw[0]];
    }
  }

  // ---------------------------------------------------------------- one field

  ghost predicate HasValue(lib: Library, field: Field, text: Bytes, loc: Location) {
    exists value :: IsValueOf(lib, field, text, loc, value)
  }

  /** All texts are allowed, all that are not blank can be read, and a required field has one of those. */
  ghost predicate Passes(lib: Library, field: Field, raw: seq<Bytes>, loc: Location) {
    && (forall v | v in raw :: OptionAllows(field, v))
    && (forall v | v in raw && !Blank(v) :: HasValue(lib, field, TrimSpace(v), loc))
    && (field.required ==> exists v :: v in raw && !Blank(v))
  }

  ghost predicate ValuesOf(lib: Library, field: Field, texts: seq<Bytes>, loc: Location, values: seq<Value>) {
    && |values| == |texts|
    && forall i | 0 <= i < |texts| :: IsValueOf(lib, field, TrimSpace(texts[i]), loc, values[i])
  }

  /** A multiple field keeps the values of all distinct non-blank texts in order, any other field that of the first. */
  ghost predicate KeptAs(lib: Library, field: Field, raw: seq<Bytes>, loc: Location, value: Value) {
    if field.multiple then
      value.ListValue? && ValuesOf(lib, field, NonBlank(FirstOccurrences(raw)), loc, value.items)
    else
      exists i: nat :: FirstNonBlank(raw, i) && IsValueOf(lib, field, TrimSpace(raw[i]), loc, value)
  }

  lemma PassesMeaning(lib: Library, field: Field, raw: seq<Bytes>, loc: Location)
    ensures Passes(lib, field, raw, loc) <==> Acceptable(lib, field, raw, loc)
  {
    hide OptionAllows, Allowed, Blank, CheckText, IsValueOf;
    forall v ensures OptionAllows(field, v) <==> Allowed(field, v) {
      AllowedMeaning(field, v);
    }
    forall v ensures HasValue(lib, field, TrimSpace(v), loc) <==> CheckText(lib, field, TrimSpace(v), loc).Success? {
      ReadableMeaning(lib, field, TrimSpace(v), loc);
    }
  }

  lemma ReadableMeaning(lib: Library, field: Field, text: Bytes, loc: Location)
    ensures HasValue(lib, field, text, loc) <==> CheckText(lib, field, text, loc).Success?
  {
    hide CheckText, IsValueOf;
    var r := CheckText(lib, field, text, loc);
    if r.Success? {
      CheckTextMeaning(lib, field, text, loc, r.value);
    }
    if value :| IsValueOf(lib, field, text, loc, value) {
      CheckTextMeaning(lib, field, text, loc, value);
    }
  }

  lemma KeptMeaning(lib: Library, field: Field, raw: seq<Bytes>, loc: Location, value: Value)
    requires StoredFrom(lib, field, raw, loc, value)
    ensures KeptAs(lib, field, raw, loc, value)
  {
    hide CheckText, IsValueOf, FirstOccurrences, NonBlank, TrimSpace;
    if field.multiple {
      var texts := NonBlank(FirstOccurrences(raw));
      forall i | 0 <= i < |texts| ensures IsValueOf(lib, field, TrimSpace(texts[i]), loc, value.items[i]) {
        CheckTextMeaning(lib, field, TrimSpace(texts[i]), loc, value.items[i]);
      }
    } else {
      var i: nat :| FirstNonBlank(raw, i) && CheckText(lib, field, TrimSpace(raw[i]), loc) == Success(value);
      CheckTextMeaning(lib, field, TrimSpace(raw[i]), loc, value);
    }
  }

  /** The outcome of a field, from its definition and the texts it looks at. */
  ghost predicate Follows(lib: Library, field: Field, raw: seq<Bytes>, loc: Location, o: Outcome) {
    && (o.Rejected? <==> !Passes(lib, field, raw, loc))
    && (o.Nothing? <==> Passes(lib, field, raw, loc) && !field.multiple && forall v | v in raw :: Blank(v))
    && (o.Stored? ==> KeptAs(lib, field, raw, loc, o.value))
  }

  lemma OutcomeMeaning(lib: Library, field: Field, loc: Location, ctx: RequestContext)
    ensures forall raw | RawTexts(field, ctx, raw) :: Follows(lib, field, raw, loc, FieldOutcome(lib, field, loc, ctx))
    ensures forall reason | DefaultFails(field, ctx, reason) ::
              FieldOutcome(lib, field, loc, ctx) == Rejected(DefaultFailed(reason))
  {
    hide FieldOutcome, Submitted, RawTexts, DefaultFails, Acceptable, Passes, StoredFrom, KeptAs, Blank;
    SubmittedMeaning(field, ctx);
    FieldVerdict(lib, field, loc, ctx);
    forall raw | RawTexts(field, ctx, raw)
      ensures Follows(lib, field, raw, loc, FieldOutcome(lib, field, loc, ctx))
    {
      assert Submitted(field, ctx) == Success(raw);
      PassesMeaning(lib, field, raw, loc);
      if FieldOutcome(lib, field, loc, ctx).Stored? {
        KeptMeaning(lib, field, raw, loc, FieldOutcome(lib, field, loc, ctx).value);
      }
    }
  }

  /** A text field that the user cannot edit stores its default, trimmed. */
  lemma FixedTextIsStored(lib: Library, field: Field, loc: Location, ctx: RequestContext, v: Bytes)
    requires (field.hidden || field.disabled) && field.default.String(ctx) == Success(v) && !Blank(v)
    requires (field.typ.Unset? || field.typ.TString?) && field.pattern == [] && field.options == [] && !field.multiple
    ensures FieldOutcome(lib, field, loc, ctx) == Stored(StringValue(TrimSpace(v)))
  {
    hide FieldOutcome, Blank, TrimSpace;
    OutcomeMeaning(lib, field, loc, ctx);
    assert RawTexts(field, ctx, [v]);
    assert IsValueOf(lib, field, TrimSpace(v), loc, StringValue(TrimSpace(v)));
    assert v in [v];
    assert Passes(lib, field, [v], loc);
  }

  /** A ticked checkbox stores true. */
  lemma TickedIsTrue(lib: Library, field: Field, loc: Location, ctx: RequestContext)
    requires !field.hidden && !field.disabled && field.typ.TBoolean? && field.options == [] && !field.multiple
    requires field.name in ctx.form && ctx.form[field.name] == ["true"]
    ensures FieldOutcome(lib, field, loc, ctx) == Stored(BooleanValue(true))
  {
    hide FieldOutcome, SkipSpaces, DropSpaces;
    var t: Bytes := "true";
    assert SkipSpaces(t, 0) == 0 && DropSpaces(t, 0, |t|) == |t| by {
      NoSpaces(t);
    }
    assert TrimSpace(t) == t;
    OutcomeMeaning(lib, field, loc, ctx);
    assert RawTexts(field, ctx, [t]);
    assert IsValueOf(lib, field, t, loc, BooleanValue(true));
    assert t in [t];
    assert Passes(lib, field, [t], loc);
  }

  lemma NoSpaces(t: Bytes)
    requires t != [] && SpaceAt(t, 0) == 0 && SpaceBefore(t, 0, |t|) == 0
    ensures SkipSpaces(t, 0) == 0 && DropSpaces(t, 0, |t|) == |t|
  {
  }

  // ---------------------------------------------------------------- the whole record

  /** Field `i` looks at the texts `raw`, which pass, and `value` is what it keeps of them. */
  ghost predicate KeptOf(lib: Library, field: Field, loc: Location, ctx: RequestContext, value: Value) {
    exists raw :: RawTexts(field, ctx, raw) && Passes(lib, field, raw, loc) && KeptAs(lib, field, raw, loc, value)
  }

  /** Field `i` has something to store: it is a list, or one of the texts it looks at is not blank. */
  ghost predicate HasSomething(field: Field, ctx: RequestContext) {
    field.multiple || exists raw, v :: RawTexts(field, ctx, raw) && v in raw && !Blank(v)
  }

  /** The record holds of each name what the last field of that name with something to store keeps, and nothing else. */
  ghost predicate IsRecordOf(
    lib: Library, fields: seq<Field>, loc: Location, ctx: RequestContext, record: map<Bytes, Value>
  ) {
    && (forall i: nat | i < |fields| && HasSomething(fields[i], ctx) :: fields[i].name in record)
    && (forall name | name in record :: exists i: nat :: LastWithSomething(fields, ctx, name, i))
    && forall name, i: nat | name in record && LastWithSomething(fields, ctx, name, i) ::
         KeptOf(lib, fields[i], loc, ctx, record[name])
  }

  ghost predicate LastWithSomething(fields: seq<Field>, ctx: RequestContext, name: Bytes, i: nat) {
    && i < |fields| && fields[i].name == name && HasSomething(fields[i], ctx)
    && forall j | i < j < |fields| && fields[j].name == name :: !HasSomething(fields[j], ctx)
  }

  /** In a form without errors a field stores exactly if it has something, and then what it keeps of that. */
  lemma AcceptedField(lib: Library, fields: seq<Field>, loc: Location, ctx: RequestContext, i: nat)
    requires ErrorsOf(lib, fields, loc, ctx) == [] && i < |fields|
    ensures var o := FieldOutcome(lib, fields[i], loc, ctx);
      (o.Stored? <==> HasSomething(fields[i], ctx)) && (o.Stored? ==> KeptOf(lib, fields[i], loc, ctx, o.value))
  {
    hide FieldOutcome, Submitted, RawTexts, Passes, KeptAs, Blank, DefaultFails, Acceptable, StoredFrom;
    AcceptedFormIsSound(lib, fields, loc, ctx);
    SubmittedMeaning(fields[i], ctx);
    OutcomeMeaning(lib, fields[i], loc, ctx);
    NotRejected(lib, fields, loc, ctx, i);
    var raw := Submitted(fields[i], ctx).value;
    assert RawTexts(fields[i], ctx, raw);
  }

  lemma NotRejected(lib: Library, fields: seq<Field>, loc: Location, ctx: RequestContext, i: nat)
    requires ErrorsOf(lib, fields, loc, ctx) == [] && i < |fields|
    ensures !FieldOutcome(lib, fields[i], loc, ctx).Rejected?
  {
    hide FieldOutcome;
    var verdicts := Verdicts(lib, fields, loc, ctx);
    var at := ErrorsReportRejected(verdicts);
    assert !verdicts[i].outcome.Rejected?;
  }

  lemma AcceptedRecord(lib: Library, fields: seq<Field>, loc: Location, ctx: RequestContext)
    requires ErrorsOf(lib, fields, loc, ctx) == []
    ensures IsRecordOf(lib, fields, loc, ctx, FieldsOf(lib, fields, loc, ctx))
  {
    hide FieldOutcome, HasSomething, KeptOf, Merge, ErrorsOf;
    var verdicts, m := Verdicts(lib, fields, loc, ctx), FieldsOf(lib, fields, loc, ctx);
    forall i: nat | i < |fields|
      ensures verdicts[i].outcome.Stored? <==> HasSomething(fields[i], ctx)
      ensures verdicts[i].outcome.Stored? ==> KeptOf(lib, fields[i], loc, ctx, verdicts[i].outcome.value)
      ensures HasSomething(fields[i], ctx) ==> fields[i].name in m
    {
      AcceptedField(lib, fields, loc, ctx, i);
      if verdicts[i].outcome.Stored? {
        StoredStays(verdicts, i);
      }
    }
    forall name, i: nat ensures LastWithSomething(fields, ctx, name, i) <==> LastStored(verdicts, name, i) {
    }
    forall name | name in m ensures exists i: nat :: LastWithSomething(fields, ctx, name, i) {
      LastStoredWins(verdicts, name);
      var i: nat :| LastStored(verdicts, name, i);
      assert LastWithSomething(fields, ctx, name, i);
    }
    forall name, i: nat | name in m && LastWithSomething(fields, ctx, name, i)
      ensures KeptOf(lib, fields[i], loc, ctx, m[name])
    {
      LastStoredWins(verdicts, name);
      assert LastStored(verdicts, name, i);
    }
  }

  /** What the record holds of a field that keeps one value and has a name of its own. */
  lemma SingleValue(lib: Library, fields: seq<Field>, loc: Location, ctx: RequestContext,
                    record: map<Bytes, Value>, f: nat)
    returns (raw: seq<Bytes>, i: nat)
    requires IsRecordOf(lib, fields, loc, ctx, record) && f < |fields| && !fields[f].multiple
    requires forall j | 0 <= j < |fields| && j != f :: fields[j].name != fields[f].name
    requires fields[f].name in record
    ensures RawTexts(fields[f], ctx, raw) && FirstNonBlank(raw, i)
    ensures IsValueOf(lib, fields[f], TrimSpace(raw[i]), loc, record[fields[f].name])
  {
    hide RawTexts, Passes, HasSomething, IsValueOf, TrimSpace;
    var field := fields[f];
    var k: nat :| LastWithSomething(fields, ctx, field.name, k);
    assert KeptOf(lib, field, loc, ctx, record[field.name]);
    raw :|
      RawTexts(field, ctx, raw) && Passes(lib, field, raw, loc) && KeptAs(lib, field, raw, loc, record[field.name]);
    i :| FirstNonBlank(raw, i) && IsValueOf(lib, field, TrimSpace(raw[i]), loc, record[field.name]);
  }
}
