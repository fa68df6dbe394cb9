/**
 The form definition and the form parser: how one submission becomes a map of typed
 values and a list of field errors.
 */
module Schema {
  import opened Wrappers
  import opened QueryEncoding
  import opened FormValues
  import opened Utils
  import Decimals

  /** What goes wrong in one field. */
  datatype Error =
    | DefaultFailed(reason: Bytes)
    | NotAllowedOption
    | RequiredField
    | WrongPattern(pattern: Bytes)
    | InvalidSyntax(reason: Bytes)
    | RequiredNotProvided

  datatype FieldError = FieldError(name: Bytes, error: Error)

  datatype Credentials = Credentials(user: Bytes, groups: seq<Bytes>, email: Bytes)

  /** What templates see of the request. */
  datatype RequestContext = RequestContext(
    headers: Values,
    query: Values,
    form: Values,
    code: Bytes,
    credentials: Option<Credentials>
  )

  /** Template execution is a function of the context that may fail; an absent template renders as nothing. */
  datatype Template = Absent | Present(render: RequestContext -> Result<Bytes, Bytes>) {
    function String(ctx: RequestContext): Result<Bytes, Bytes> {
      match this
      case Absent => Success([])
      case Present(render) => render(ctx)
    }
  }

  datatype Type = Unset | TString | TInteger | TFloat | TBoolean | TDate | TDateTime

  datatype Opt = Opt(caption: Bytes, value: Bytes)

  datatype Field = Field(
    name: Bytes,
    required: bool,
    disabled: bool,
    hidden: bool,
    default: Template,
    typ: Type,
    pattern: Bytes,
    options: seq<Opt>,
    multiple: bool
  )

  /** Typed values. Floats are their bit patterns and times their instants, both produced by the library below. */
  datatype Value =
    | StringValue(text: Bytes)
    | IntegerValue(number: int)
    | FloatValue(bits: int)
    | BooleanValue(flag: bool)
    | TimeValue(instant: int)
    | ListValue(items: seq<Value>)

  datatype Location = Local | Zone(name: Bytes)

  /** Library functions outside of this model. A pattern that does not compile matches nothing. */
  datatype Library = Library(
    matches: (Bytes, Bytes) -> bool,
    parseFloat: Bytes -> Result<int, Bytes>,
    parseDate: (Bytes, Location) -> Result<int, Bytes>,
    parseDateTime: (Bytes, Location) -> Result<int, Bytes>,
    loadLocation: Bytes -> Option<Location>
  )

  // ---------------------------------------------------------------- trimming

  /** The characters with the Unicode property White_Space, by the length of their UTF-8 form. */
  predicate OneByteSpace(a: Octet) {
    9 <= a as int <= 13 || a == ' '
  }

  predicate TwoByteSpace(a: Octet, b: Octet) {
    a as int == 0xC2 && (b as int == 0x85 || b as int == 0xA0)
  }

  predicate ThreeByteSpace(a: Octet, b: Octet, c: Octet) {
    || (a as int == 0xE1 && b as int == 0x9A && c as int == 0x80)
    || (a as int == 0xE2 && b as int == 0x80
        && (0x80 <= c as int <= 0x8A || c as int == 0xA8 || c as int == 0xA9 || c as int == 0xAF))
    || (a as int == 0xE2 && b as int == 0x81 && c as int == 0x9F)
    || (a as int == 0xE3 && b as int == 0x80 && c as int == 0x80)
  }

  /** Length of the space character at `i`, 0 when there is none. */
  function SpaceAt(s: Bytes, i: nat): (n: nat)
    requires i <= |s|
    ensures i + n <= |s|
  {
    if i < |s| && OneByteSpace(s[i]) then 1
    else if i + 1 < |s| && TwoByteSpace(s[i], s[i + 1]) then 2
    else if i + 2 < |s| && ThreeByteSpace(s[i], s[i + 1], s[i + 2]) then 3
    else 0
  }

  /** Length of the space character that starts at `low` or later and ends before `j`. */
  function SpaceBefore(s: Bytes, low: nat, j: nat): (n: nat)
    requires low <= j <= |s|
    ensures low + n <= j
  {
    if low + 1 <= j && OneByteSpace(s[j - 1]) then 1
    else if low + 2 <= j && TwoByteSpace(s[j - 2], s[j - 1]) then 2
    else if low + 3 <= j && ThreeByteSpace(s[j - 3], s[j - 2], s[j - 1]) then 3
    else 0
  }

  function SkipSpaces(s: Bytes, i: nat): (start: nat)
    requires i <= |s|
    ensures i <= start <= |s|
    decreases |s| - i
  {
    if SpaceAt(s, i) == 0 then i else SkipSpaces(s, i + SpaceAt(s, i))
  }

  function DropSpaces(s: Bytes, low: nat, j: nat): (end: nat)
    requires low <= j <= |s|
    ensures low <= end <= j
    decreases j
  {
    if SpaceBefore(s, low, j) == 0 then j else DropSpaces(s, low, j - SpaceBefore(s, low, j))
  }

  function TrimSpace(s: Bytes): Bytes {
    var start := SkipSpaces(s, 0);
    s[start..DropSpaces(s, start, |s|)]
  }

  predicate Blank(s: Bytes) {
    TrimSpace(s) == []
  }

  /** From `i` to `j` there are space characters only. */
  predicate Spaces(s: Bytes, i: nat, j: nat)
    requires i <= j <= |s|
    decreases j - i
  {
    i == j || (SpaceAt(s, i) > 0 && i + SpaceAt(s, i) <= j && Spaces(s, i + SpaceAt(s, i), j))
  }

  predicate Trimmed(s: Bytes) {
    SpaceAt(s, 0) == 0 && SpaceBefore(s, 0, |s|) == 0
  }

  lemma {:induction false} SkippedAreSpaces(s: Bytes, i: nat)
    requires i <= |s|
    ensures SpaceAt(s, SkipSpaces(s, i)) == 0
    ensures Spaces(s, i, SkipSpaces(s, i))
    decreases |s| - i
  {
    if SpaceAt(s, i) > 0 {
      SkippedAreSpaces(s, i + SpaceAt(s, i));
    }
  }

  lemma {:induction false} DroppedAreSpaces(s: Bytes, low: nat, j: nat)
    requires low <= j <= |s| && Spaces(s, j, |s|)
    ensures SpaceBefore(s, low, DropSpaces(s, low, j)) == 0
    ensures Spaces(s, DropSpaces(s, low, j), |s|)
    decreases j
  {
    var n := SpaceBefore(s, low, j);
    if n > 0 {
      assert SpaceAt(s, j - n) == n;
      DroppedAreSpaces(s, low, j - n);
    }
  }

  /** Trimming cuts off white space only, and leaves none at either end. */
  lemma TrimMeaning(s: Bytes) returns (i: nat, j: nat)
    ensures i <= j <= |s| && TrimSpace(s) == s[i..j]
    ensures Spaces(s, 0, i) && Spaces(s, j, |s|)
    ensures Trimmed(TrimSpace(s))
  {
    i := SkipSpaces(s, 0);
    j := DropSpaces(s, i, |s|);
    SkippedAreSpaces(s, 0);
    DroppedAreSpaces(s, i, |s|);
    MiddleIsTrimmed(s, i, j);
  }

  lemma MiddleIsTrimmed(s: Bytes, i: nat, j: nat)
    requires i <= j <= |s| && SpaceAt(s, i) == 0 && SpaceBefore(s, i, j) == 0
    ensures Trimmed(s[i..j])
  {
  }

  /** Trimming a trimmed text changes nothing, whatever bytes it holds. */
  lemma TrimIdempotent(s: Bytes)
    ensures TrimSpace(TrimSpace(s)) == TrimSpace(s)
  {
    var i, j := TrimMeaning(s);
    var t := TrimSpace(s);
    assert t[0..|t|] == t;
  }

  // ---------------------------------------------------------------- one value

  predicate IsInt64(n: int) {
    -0x8000_0000_0000_0000 <= n < 0x8000_0000_0000_0000
  }

  const SYNTAX: Bytes := "invalid syntax"
  const RANGE: Bytes := "value out of range"

  /** Digit by digit from the left; what goes wrong first is reported, a bad character or a number over 64 bits. */
  function ScanDigits(s: string): Result<nat, Bytes> {
    if s == "" then Success(0)
    else
      var n :- ScanDigits(s[..|s| - 1]);
      var c := s[|s| - 1];
      if !Decimals.IsDigit(c) then Failure(SYNTAX)
      else if 10 * n + Decimals.DigitValue(c) >= 0x1_0000_0000_0000_0000 then Failure(RANGE)
      else Success(10 * n + Decimals.DigitValue(c))
  }

  /** A signed decimal number that fits in 64 bits. */
  function ParseInt(s: string): Result<int, Bytes> {
    var signed := s != [] && (s[0] == '+' || s[0] == '-');
    var digits := if signed then s[1..] else s;
    if digits == [] then Failure(SYNTAX)
    else
      var magnitude: int :- ScanDigits(digits);
      var n: int := if signed && s[0] == '-' then -magnitude else magnitude;
      if IsInt64(n) then Success(n) else Failure(RANGE)
  }

  lemma {:induction false} ScanDenotes(s: string)
    requires Decimals.DigitsValue(s).Some?
    ensures var n := Decimals.DigitsValue(s).value;
      ScanDigits(s) == if n < 0x1_0000_0000_0000_0000 then Success(n) else Failure(RANGE)
  {
    if s != "" {
      ScanDenotes(s[..|s| - 1]);
    }
  }

  /** Exactly the numbers of 64 bits are read back from their decimal notation. */
  lemma ParseIntReadsDecimal(n: int)
    ensures ParseInt(Decimals.Integer(n)) == if IsInt64(n) then Success(n) else Failure(RANGE)
  {
    hide Decimals.Decimal, Decimals.DigitsValue, ScanDigits;
    var magnitude := if n < 0 then -n else n;
    var digits := Decimals.Decimal(magnitude);
    Decimals.DecimalDenotes(magnitude);
    ScanDenotes(digits);
    if n < 0 {
      assert Decimals.Integer(n) == "-" + digits;
      assert ("-" + digits)[1..] == digits;
    } else {
      assert Decimals.IsDigit(digits[0]);
    }
  }

  /** A bad character is a syntax error, and a digit too many is out of range. */
  lemma NextCharacter(s: string, c: char)
    requires ScanDigits(s).Success?
    ensures !Decimals.IsDigit(c) ==> ScanDigits(s + [c]) == Failure("invalid syntax")
    ensures Decimals.IsDigit(c) && 10 * ScanDigits(s).value + Decimals.DigitValue(c) > 0xFFFF_FFFF_FFFF_FFFF ==>
              ScanDigits(s + [c]) == Failure("value out of range")
  {
    assert (s + [c])[..|s|] == s;
  }

  /** Once a prefix has gone wrong, what follows does not change the error. */
  lemma {:induction false} FirstErrorStays(s: string, rest: string)
    requires ScanDigits(s).Failure?
    ensures ScanDigits(s + rest) == ScanDigits(s)
  {
    if rest == "" {
      assert s + rest == s;
    } else {
      FirstErrorStays(s, rest[..|rest| - 1]);
      assert (s + rest)[..|s + rest| - 1] == s + rest[..|rest| - 1];
    }
  }

  function ParseBool(s: Bytes): Result<bool, Bytes> {
    if s in ["1", "t", "T", "true", "TRUE", "True"] then Success(true)
    else if s in ["0", "f", "F", "false", "FALSE", "False"] then Success(false)
    else Failure(SYNTAX)
  }

  function Typed<T>(r: Result<T, Bytes>, wrap: T -> Value): Result<Value, Error> {
    match r
    case Success(v) => Success(wrap(v))
    case Failure(reason) => Failure(InvalidSyntax(reason))
  }

  function ParseType(lib: Library, typ: Type, value: Bytes, loc: Location): Result<Value, Error> {
    match typ
    case TInteger => Typed(ParseInt(value), n => IntegerValue(n))
    case TFloat => Typed(lib.parseFloat(value), b => FloatValue(b))
    case TBoolean => Typed(ParseBool(value), b => BooleanValue(b))
    case TDate => Typed(lib.parseDate(value, loc), t => TimeValue(t))
    case TDateTime => Typed(lib.parseDateTime(value, loc), t => TimeValue(t))
    case _ => Success(StringValue(value))
  }

  predicate PatternApplies(field: Field) {
    (field.typ == Unset || field.typ == TString) && field.pattern != []
  }

  function ParseValue(lib: Library, field: Field, value: Bytes, loc: Location,
                      ctx: RequestContext): Result<Value, Error> {
    var trimmed := TrimSpace(value);
    var rendered := if trimmed == [] then field.default.String(ctx) else Success(trimmed);
    if rendered.Failure? then Failure(DefaultFailed(rendered.error))
    else if rendered.value == [] && field.required then Failure(RequiredField)
    else if PatternApplies(field) && !lib.matches(field.pattern, rendered.value) then
         Failure(WrongPattern(field.pattern))
    else ParseType(lib, field.typ, rendered.value, loc)
  }

  /** What a non-blank value has to pass: the pattern and the type, both on the trimmed text. */
  function CheckText(lib: Library, field: Field, text: Bytes, loc: Location): Result<Value, Error> {
    if PatternApplies(field) && !lib.matches(field.pattern, text) then Failure(WrongPattern(field.pattern))
    else ParseType(lib, field.typ, text, loc)
  }

  /**
   On the trimmed form of a non-blank value the default is never rendered and the
   required-field error never raised, for any definition of the field.
   */
  lemma DefaultNeverSubstituted(lib: Library, field: Field, value: Bytes, loc: Location, ctx: RequestContext)
    requires !Blank(value)
    ensures ParseValue(lib, field, TrimSpace(value), loc, ctx) == CheckText(lib, field, TrimSpace(value), loc)
    ensures ParseValue(lib, field, TrimSpace(value), loc, ctx) != Failure(RequiredField)
  {
    TrimIdempotent(value);
    hide TrimSpace, PatternApplies;
  }

  // ---------------------------------------------------------------- one field

  function OptionText(opt: Opt): Bytes {
    if opt.value != [] then opt.value else opt.caption
  }

  method OptionValues(options: seq<Opt>) returns (allowed: Set<Bytes>)
    ensures fresh(allowed)
    ensures allowed.elements == set opt | opt in options :: OptionText(opt)
  {
    var texts: seq<Bytes> := [];
    for i := 0 to |options|
      invariant |texts| == i
      invariant forall k | 0 <= k < i :: texts[k] == OptionText(options[k])
    {
      if options[i].value != [] {
        texts := texts + [options[i].value];
      } else {
        texts := texts + [options[i].caption];
      }
    }
    allowed := new Set(texts);
    forall t
      ensures t in allowed.elements <==> t in set opt | opt in options :: OptionText(opt)
    {
      if t in texts {
        var k :| 0 <= k < |texts| && texts[k] == t;
        assert options[k] in options;
      }
      if opt :| opt in options && OptionText(opt) == t {
        var k :| 0 <= k < |options| && options[k] == opt;
        assert texts[k] == t;
      }
    }
  }

  predicate Allowed(field: Field, value: Bytes) {
    field.options == [] || exists opt | opt in field.options :: OptionText(opt) == value
  }

  /** Parse the non-blank values in order; the first failure is the failure of the field. */
  function ParsedValues(lib: Library, field: Field, values: seq<Bytes>, loc: Location,
                        ctx: RequestContext): Result<seq<Value>, Error> {
    if values == [] then Success([])
    else
      var init :- ParsedValues(lib, field, values[..|values| - 1], loc, ctx);
      var last := TrimSpace(values[|values| - 1]);
      if last == [] then Success(init)
      else
        var v :- ParseValue(lib, field, last, loc, ctx);
        Success(init + [v])
  }

  method ParseValues(lib: Library, field: Field, values: seq<Bytes>, loc: Location, ctx: RequestContext)
    returns (r: Result<seq<Value>, Error>)
    ensures r == ParsedValues(lib, field, values, loc, ctx)
  {
    var parsed: seq<Value> := [];
    for i := 0 to |values|
      invariant ParsedValues(lib, field, values[..i], loc, ctx) == Success(parsed)
    {
      assert values[..i + 1][..i] == values[..i];
      var value := TrimSpace(values[i]);
      if |value| == 0 {
        continue;
      }
      var v := ParseValue(lib, field, value, loc, ctx);
      if v.Failure? {
        FailureStays(lib, field, values, i + 1, loc, ctx);
        return Failure(v.error);
      }
      parsed := parsed + [v.value];
    }
    assert values[..|values|] == values;
    return Success(parsed);
  }

  lemma {:induction false} FailureStays(lib: Library, field: Field, values: seq<Bytes>, i: nat,
                                        loc: Location, ctx: RequestContext)
    requires i <= |values| && ParsedValues(lib, field, values[..i], loc, ctx).Failure?
    ensures ParsedValues(lib, field, values, loc, ctx) == ParsedValues(lib, field, values[..i], loc, ctx)
  {
    if i == |values| {
      assert values[..i] == values;
    } else {
      assert values[..|values| - 1][..i] == values[..i];
      FailureStays(lib, field, values[..|values| - 1], i, loc, ctx);
    }
  }

  /** The default of a field the user cannot edit, else what was posted, else the default of an unticked checkbox. */
  function Submitted(field: Field, ctx: RequestContext): Result<seq<Bytes>, Bytes> {
    if field.hidden || field.disabled then Single(field.default.String(ctx))
    else if field.typ == TBoolean && All(ctx.form, field.name) == [] && field.default.Present? then
         Single(field.default.String(ctx))
    else Success(All(ctx.form, field.name))
  }

  function Single(r: Result<Bytes, Bytes>): Result<seq<Bytes>, Bytes> {
    match r
    case Success(v) => Success([v])
    case Failure(reason) => Failure(reason)
  }

  datatype Outcome = Rejected(error: Error) | Stored(value: Value) | Nothing

  function FieldOutcome(lib: Library, field: Field, loc: Location, ctx: RequestContext): Outcome {
    match Submitted(field, ctx)
    case Failure(reason) => Rejected(DefaultFailed(reason))
    case Success(raw) => Judged(lib, field, FirstOccurrences(raw), loc, ctx)
  }

  function Judged(lib: Library, field: Field, values: seq<Bytes>, loc: Location, ctx: RequestContext): Outcome {
    if exists v | v in values :: !Allowed(field, v) then Rejected(NotAllowedOption)
    else
      match ParsedValues(lib, field, values, loc, ctx)
      case Failure(error) => Rejected(error)
      case Success(parsed) =>
        if field.required && parsed == [] then Rejected(RequiredNotProvided)
        else if field.multiple then Stored(ListValue(parsed))
        else if parsed != [] then Stored(parsed[0])
        else Nothing
  }

  // ---------------------------------------------------------------- the whole form

  datatype Verdict = Verdict(name: Bytes, outcome: Outcome)

  function Verdicts(lib: Library, fields: seq<Field>, loc: Location, ctx: RequestContext): seq<Verdict> {
    seq(|fields|, i requires 0 <= i < |fields| => Verdict(fields[i].name, FieldOutcome(lib, fields[i], loc, ctx)))
  }

  function Merge(verdicts: seq<Verdict>): map<Bytes, Value> {
    if verdicts == [] then map[]
    else
      var init := Merge(verdicts[..|verdicts| - 1]);
      var last := verdicts[|verdicts| - 1];
      if last.outcome.Stored? then init[last.name := last.outcome.value] else init
  }

  function Errors(verdicts: seq<Verdict>): seq<FieldError> {
    if verdicts == [] then []
    else
      var init := Errors(verdicts[..|verdicts| - 1]);
      var last := verdicts[|verdicts| - 1];
      if last.outcome.Rejected? then init + [FieldError(last.name, last.outcome.error)] else init
  }

  function FieldsOf(lib: Library, fields: seq<Field>, loc: Location, ctx: RequestContext): map<Bytes, Value> {
    Merge(Verdicts(lib, fields, loc, ctx))
  }

  function ErrorsOf(lib: Library, fields: seq<Field>, loc: Location, ctx: RequestContext): seq<FieldError> {
    Errors(Verdicts(lib, fields, loc, ctx))
  }

  method AllAllowed(field: Field, values: seq<Bytes>) returns (ok: bool)
    requires field.options != []
    ensures ok <==> forall v | v in values :: Allowed(field, v)
  {
    var options := OptionValues(field.options);
    ok := options.Has(values);
    forall v ensures v in options.elements <==> Allowed(field, v) {
    }
  }

  method CollectValues(field: Field, ctx: RequestContext) returns (r: Result<seq<Bytes>, Bytes>)
    ensures Submitted(field, ctx).Failure? ==> r == Failure(Submitted(field, ctx).error)
    ensures Submitted(field, ctx).Success? ==> r == Success(FirstOccurrences(Submitted(field, ctx).value))
  {
    var values: seq<Bytes> := [];
    if field.hidden || field.disabled {
      var v := field.default.String(ctx);
      if v.Failure? {
        return Failure(v.error);
      }
      values := values + [v.value];
    } else {
      values := Uniq(All(ctx.form, field.name));
      assert All(ctx.form, field.name) != [] ==> All(ctx.form, field.name)[0] in values;
    }

    if field.typ == TBoolean && |values| == 0 && field.default.Present? {
      var v := field.default.String(ctx);
      if v.Failure? {
        return Failure(v.error);
      }
      values := values + [v.value];
    }
    assert |values| == 1 ==> values[..0] == [];
    return Success(values);
  }

  /** The body of the loop over the definition: each early return is one way on to the next field. */
  method ParseField(lib: Library, field: Field, loc: Location, ctx: RequestContext) returns (outcome: Outcome)
    ensures outcome == FieldOutcome(lib, field, loc, ctx)
  {
    var collected := CollectValues(field, ctx);
    if collected.Failure? {
      return Rejected(DefaultFailed(collected.error));
    }
    var values := collected.value;

    if |field.options| > 0 {
      var ok := AllAllowed(field, values);
      if !ok {
        return Rejected(NotAllowedOption);
      }
    }

    var parsed := ParseValues(lib, field, values, loc, ctx);
    if parsed.Failure? {
      return Rejected(parsed.error);
    }

    if field.required && |parsed.value| == 0 {
      return Rejected(RequiredNotProvided);
    }

    if field.multiple {
      return Stored(ListValue(parsed.value));
    } else if |parsed.value| > 0 {
      return Stored(parsed.value[0]);
    }
    return Nothing;
  }

  method ParseForm(lib: Library, definition: seq<Field>, loc: Location, ctx: RequestContext)
    returns (fields: map<Bytes, Value>, errors: seq<FieldError>)
    ensures fields == FieldsOf(lib, definition, loc, ctx)
    ensures errors == ErrorsOf(lib, definition, loc, ctx)
  {
    hide FieldOutcome;
    fields, errors := map[], [];
    ghost var verdicts := Verdicts(lib, definition, loc, ctx);
    for i := 0 to |definition|
      invariant fields == Merge(verdicts[..i])
      invariant errors == Errors(verdicts[..i])
    {
      assert verdicts[..i + 1][..i] == verdicts[..i];
      var field := definition[i];
      var outcome := ParseField(lib, field, loc, ctx);
      assert verdicts[..i + 1][i] == Verdict(field.name, outcome);
      match outcome {
        case Rejected(e) => errors := errors + [FieldError(field.name, e)];
        case Stored(v) => fields := fields[field.name := v];
        case Nothing => continue;
      }
    }
    assert verdicts[..|verdicts|] == verdicts;
  }
}
