/** What the form parser promises: per field, per form, and across two requests. */
module SchemaTheorems {
  import opened Wrappers
  import opened QueryEncoding
  import opened FormValues
  import opened Utils
  import opened Schema

  // ---------------------------------------------------------------- values of one field

  function NonBlank(values: seq<Bytes>): seq<Bytes> {
    Filter(values, (v: Bytes) => !Blank(v))
  }

  ghost predicate AllBlank(values: seq<Bytes>) {
    forall v | v in values :: Blank(v)
  }

  ghost predicate FirstNonBlank(values: seq<Bytes>, i: nat) {
    i < |values| && !Blank(values[i]) && forall j | 0 <= j < i :: Blank(values[j])
  }

  lemma NonBlankMeaning(values: seq<Bytes>)
    ensures NonBlank(values) == [] <==> AllBlank(values)
    ensures NonBlank(values) != [] ==> exists i: nat :: FirstNonBlank(values, i) && values[i] == NonBlank(values)[0]
  {
    var keep := (v: Bytes) => !Blank(v);
    assert NonBlank(values) == Filter(values, keep);
    FilterMeaning(values, keep);
    if NonBlank(values) != [] {
      var i: nat :| FirstKept(values, keep, i) && values[i] == NonBlank(values)[0];
      assert FirstNonBlank(values, i);
      assert !Blank(NonBlank(values)[0]) && NonBlank(values)[0] in values;
    } else {
      forall v | v in values ensures Blank(v) {
        assert v in Filter(values, keep) <==> keep(v);
      }
    }
  }

  /** Deduplication does not change which value is the first that is not blank. */
  lemma FirstNonBlankSurvives(values: seq<Bytes>)
    ensures NonBlank(FirstOccurrences(values)) == [] <==> AllBlank(values)
    ensures NonBlank(FirstOccurrences(values)) != [] ==>
              exists i: nat :: FirstNonBlank(values, i) && values[i] == NonBlank(FirstOccurrences(values))[0]
  {
    FilterFirstOccurrences(values, (v: Bytes) => !Blank(v));
    assert NonBlank(FirstOccurrences(values)) == FirstOccurrences(NonBlank(values));
    NonBlankMeaning(values);
    if NonBlank(values) != [] {
      FirstOccurrencesHead(NonBlank(values));
    }
  }

  ghost predicate Fails(lib: Library, field: Field, value: Bytes, loc: Location) {
    !Blank(value) && CheckText(lib, field, TrimSpace(value), loc).Failure?
  }

  ghost predicate FirstFailure(lib: Library, field: Field, values: seq<Bytes>, loc: Location, i: nat, error: Error) {
    && i < |values|
    && !Blank(values[i]) && CheckText(lib, field, TrimSpace(values[i]), loc) == Failure(error)
    && forall j | 0 <= j < i :: !Fails(lib, field, values[j], loc)
  }

  /** `parsed` is, element by element, the typed form of the trimmed `texts`. */
  ghost predicate TypedForms(lib: Library, field: Field, texts: seq<Bytes>, loc: Location, parsed: seq<Value>) {
    && |parsed| == |texts|
    && forall i | 0 <= i < |texts| :: CheckText(lib, field, TrimSpace(texts[i]), loc) == Success(parsed[i])
  }

  /** Parsing succeeds exactly when no non-blank value fails, keeps order, and else reports the first failure. */
  lemma {:induction false} ParsedValuesMeaning(lib: Library, field: Field, values: seq<Bytes>,
                                               loc: Location, ctx: RequestContext)
    ensures ParsedValues(lib, field, values, loc, ctx).Success?
       <==> forall v | v in values :: !Fails(lib, field, v, loc)
    ensures ParsedValues(lib, field, values, loc, ctx).Success? ==>
              TypedForms(lib, field, NonBlank(values), loc, ParsedValues(lib, field, values, loc, ctx).value)
    ensures ParsedValues(lib, field, values, loc, ctx).Failure? ==>
              exists i: nat ::
                FirstFailure(lib, field, values, loc, i, ParsedValues(lib, field, values, loc, ctx).error)
  {
    if values != [] {
      var n := |values| - 1;
      var init := values[..n];
      ParsedValuesMeaning(lib, field, init, loc, ctx);
      assert values == init + [values[n]];
      if !Blank(values[n]) {
        DefaultNeverSubstituted(lib, field, values[n], loc, ctx);
      }
      var before := ParsedValues(lib, field, init, loc, ctx);
      if before.Failure? {
        var i: nat :| FirstFailure(lib, field, init, loc, i, before.error);
        assert values[i] == init[i] && FirstFailure(lib, field, values, loc, i, before.error);
      } else if Fails(lib, field, values[n], loc) {
        assert forall j | 0 <= j < n :: values[j] in init;
        assert FirstFailure(lib, field, values, loc, n, ParsedValues(lib, field, values, loc, ctx).error);
      }
    }
  }

  // ---------------------------------------------------------------- one field

  ghost predicate Acceptable(lib: Library, field: Field, raw: seq<Bytes>, loc: Location) {
    && (forall v | v in raw :: Allowed(field, v))
    && (forall v | v in raw :: !Fails(lib, field, v, loc))
    && (field.required ==> !AllBlank(raw))
  }

  /** Where a stored value comes from, given what was submitted. */
  ghost predicate StoredFrom(lib: Library, field: Field, raw: seq<Bytes>, loc: Location, value: Value) {
    if field.multiple then
      && value.ListValue?
      && TypedForms(lib, field, NonBlank(FirstOccurrences(raw)), loc, value.items)
      && (field.required ==> value.items != [])
    else
      exists i: nat :: FirstNonBlank(raw, i) && CheckText(lib, field, TrimSpace(raw[i]), loc) == Success(value)
  }

  lemma AcceptableOnce(lib: Library, field: Field, raw: seq<Bytes>, loc: Location)
    ensures (forall v | v in raw :: Allowed(field, v)) <==> (forall v | v in FirstOccurrences(raw) :: Allowed(field, v))
    ensures (forall v | v in raw :: !Fails(lib, field, v, loc))
       <==> (forall v | v in FirstOccurrences(raw) :: !Fails(lib, field, v, loc))
  {
    var _ := FirstOccurrencesMeaning(raw);
  }

  /**
   The verdict on a field, stated on what was submitted and not on how it is checked. The
   field is rejected exactly when its default fails to render, some submitted value (blank
   or not) is not an option, some non-blank one fails its pattern or type, or it is
   required and all are blank. A multiple field stores every distinct non-blank value in
   order; a single-pick field stores the first non-blank one, and still all must pass.
   */
  lemma FieldVerdict(lib: Library, field: Field, loc: Location, ctx: RequestContext)
    ensures Submitted(field, ctx).Failure? ==>
              FieldOutcome(lib, field, loc, ctx) == Rejected(DefaultFailed(Submitted(field, ctx).error))
    ensures Submitted(field, ctx).Success? ==>
              JudgedSoundly(lib, field, Submitted(field, ctx).value, loc, FieldOutcome(lib, field, loc, ctx))
  {
    var s := Submitted(field, ctx);
    if s.Success? {
      JudgedVerdict(lib, field, s.value, loc, ctx);
    }
  }

  ghost predicate JudgedSoundly(lib: Library, field: Field, raw: seq<Bytes>, loc: Location, o: Outcome) {
    && (o.Rejected? <==> !Acceptable(lib, field, raw, loc))
    && (o.Nothing? <==> Acceptable(lib, field, raw, loc) && AllBlank(raw) && !field.multiple)
    && (o.Stored? ==> StoredFrom(lib, field, raw, loc, o.value))
  }

  lemma JudgedVerdict(lib: Library, field: Field, raw: seq<Bytes>, loc: Location, ctx: RequestContext)
    ensures JudgedSoundly(lib, field, raw, loc, Judged(lib, field, FirstOccurrences(raw), loc, ctx))
  {
    AcceptableOnce(lib, field, raw, loc);
    ParsedValuesMeaning(lib, field, FirstOccurrences(raw), loc, ctx);
    FirstNonBlankSurvives(raw);
  }

  /** Which error is reported: options before parsing, the first failing value, "required" last. */
  lemma RejectionOrder(lib: Library, field: Field, loc: Location, ctx: RequestContext)
    requires Submitted(field, ctx).Success? && FieldOutcome(lib, field, loc, ctx).Rejected?
    ensures ReportedInOrder(lib, field, Submitted(field, ctx).value, loc, FieldOutcome(lib, field, loc, ctx).error)
  {
    JudgedRejection(lib, field, Submitted(field, ctx).value, loc, ctx);
  }

  ghost predicate ReportedInOrder(lib: Library, field: Field, raw: seq<Bytes>, loc: Location, e: Error) {
    && (e == NotAllowedOption <==> !forall v | v in raw :: Allowed(field, v))
    && (e == RequiredNotProvided <==> field.required && AllBlank(raw) && forall v | v in raw :: Allowed(field, v))
    && (e == NotAllowedOption || e == RequiredNotProvided
        || exists i: nat :: FirstFailure(lib, field, FirstOccurrences(raw), loc, i, e))
    && e != RequiredField && !e.DefaultFailed?
  }

  lemma CheckTextErrors(lib: Library, field: Field, text: Bytes, loc: Location)
    ensures CheckText(lib, field, text, loc).Failure? ==>
              CheckText(lib, field, text, loc).error.WrongPattern?
              || CheckText(lib, field, text, loc).error.InvalidSyntax?
  {
  }

  lemma JudgedRejection(lib: Library, field: Field, raw: seq<Bytes>, loc: Location, ctx: RequestContext)
    requires Judged(lib, field, FirstOccurrences(raw), loc, ctx).Rejected?
    ensures ReportedInOrder(lib, field, raw, loc, Judged(lib, field, FirstOccurrences(raw), loc, ctx).error)
  {
    var values := FirstOccurrences(raw);
    AcceptableOnce(lib, field, raw, loc);
    FirstNonBlankSurvives(raw);
    ParsedValuesMeaning(lib, field, values, loc, ctx);
    var parsed := ParsedValues(lib, field, values, loc, ctx);
    if parsed.Failure? {
      var i: nat :| FirstFailure(lib, field, values, loc, i, parsed.error);
      CheckTextErrors(lib, field, TrimSpace(values[i]), loc);
      BlankDoesNotFail(lib, field, values, loc, i);
    }
  }

  lemma BlankDoesNotFail(lib: Library, field: Field, values: seq<Bytes>, loc: Location, i: nat)
    requires i < |values| && Fails(lib, field, values[i], loc)
    ensures !AllBlank(values)
  {
    assert values[i] in values;
  }

  // ---------------------------------------------------------------- the whole form

  /** Parsing a definition in two parts: errors in definition order, the later part wins in the map. */
  lemma ParseConcat(lib: Library, a: seq<Field>, b: seq<Field>, loc: Location, ctx: RequestContext)
    ensures ErrorsOf(lib, a + b, loc, ctx) == ErrorsOf(lib, a, loc, ctx) + ErrorsOf(lib, b, loc, ctx)
    ensures FieldsOf(lib, a + b, loc, ctx) == FieldsOf(lib, a, loc, ctx) + FieldsOf(lib, b, loc, ctx)
  {
    hide Errors, Merge;
    assert Verdicts(lib, a + b, loc, ctx) == Verdicts(lib, a, loc, ctx) + Verdicts(lib, b, loc, ctx);
    MergeConcat(Verdicts(lib, a, loc, ctx), Verdicts(lib, b, loc, ctx));
  }

  lemma {:induction false} MergeConcat(a: seq<Verdict>, b: seq<Verdict>)
    ensures Errors(a + b) == Errors(a) + Errors(b)
    ensures Merge(a + b) == Merge(a) + Merge(b)
  {
    if b == [] {
      assert a + b == a;
    } else {
      assert (a + b)[..|a + b| - 1] == a + b[..|b| - 1];
      MergeConcat(a, b[..|b| - 1]);
    }
  }

  ghost predicate LastStored(verdicts: seq<Verdict>, name: Bytes, i: nat) {
    && i < |verdicts| && verdicts[i].name == name && verdicts[i].outcome.Stored?
    && forall j | i < j < |verdicts| :: verdicts[j].name == name ==> !verdicts[j].outcome.Stored?
  }

  /** A name is in the result exactly when some field of that name stored a value, and then it holds the last one. */
  lemma {:induction false} LastStoredWins(verdicts: seq<Verdict>, name: Bytes)
    ensures name in Merge(verdicts) <==> exists i: nat :: LastStored(verdicts, name, i)
    ensures forall i: nat | LastStored(verdicts, name, i) ::
              name in Merge(verdicts) && verdicts[i].outcome == Stored(Merge(verdicts)[name])
  {
    if verdicts != [] {
      var n := |verdicts| - 1;
      var init := verdicts[..n];
      LastStoredWins(init, name);
      if verdicts[n].name == name && verdicts[n].outcome.Stored? {
        assert LastStored(verdicts, name, n);
      } else {
        forall i: nat
          ensures LastStored(verdicts, name, i) <==> LastStored(init, name, i)
        {
          assert i < n ==> init[i] == verdicts[i];
        }
      }
    }
  }

  /** `at` lists, in definition order, exactly the rejected fields, and `errors` names them with their errors. */
  ghost predicate ReportsRejected(verdicts: seq<Verdict>, errors: seq<FieldError>, at: seq<nat>) {
    && |at| == |errors|
    && (forall i, j | 0 <= i < j < |at| :: at[i] < at[j])
    && (forall i | 0 <= i < |at| ::
          at[i] < |verdicts| && verdicts[at[i]].outcome == Rejected(errors[i].error)
          && errors[i].name == verdicts[at[i]].name)
    && (forall k: nat | k < |verdicts| && verdicts[k].outcome.Rejected? :: k in at)
  }

  lemma NothingReported()
    ensures ReportsRejected([], [], [])
  {
  }

  lemma OneMoreReported(init: seq<Verdict>, last: Verdict, errors: seq<FieldError>, at: seq<nat>)
    requires ReportsRejected(init, errors, at)
    ensures if last.outcome.Rejected?
            then ReportsRejected(init + [last], errors + [FieldError(last.name, last.outcome.error)], at + [|init|])
            else ReportsRejected(init + [last], errors, at)
  {
    var verdicts := init + [last];
    forall k: nat | k < |init| ensures verdicts[k] == init[k] {
    }
    forall k: nat | k < |init| && init[k].outcome.Rejected? ensures k in at + [|init|] {
      assert k in at;
    }
    assert |init| in at + [|init|];
  }

  lemma {:induction false} ErrorsReportRejected(verdicts: seq<Verdict>) returns (at: seq<nat>)
    ensures ReportsRejected(verdicts, Errors(verdicts), at)
  {
    hide ReportsRejected;
    NothingReported();
    at := [];
    if verdicts != [] {
      var n := |verdicts| - 1;
      var init := verdicts[..n];
      at := ErrorsReportRejected(init);
      OneMoreReported(init, verdicts[n], Errors(init), at);
      assert init + [verdicts[n]] == verdicts;
      if verdicts[n].outcome.Rejected? {
        at := at + [n];
      }
    }
  }

  ghost predicate DistinctNames(verdicts: seq<Verdict>) {
    forall i, j | 0 <= i < j < |verdicts| :: verdicts[i].name != verdicts[j].name
  }

  ghost predicate Reported(errors: seq<FieldError>, name: Bytes) {
    exists k :: 0 <= k < |errors| && errors[k].name == name
  }

  /** Each verdict shows up in exactly one of the two results, or in neither. */
  ghost predicate Partitioned(verdicts: seq<Verdict>, m: map<Bytes, Value>, errors: seq<FieldError>) {
    && (forall i | 0 <= i < |verdicts| ::
          && (verdicts[i].outcome.Stored? <==> verdicts[i].name in m)
          && (verdicts[i].outcome.Stored? ==> m[verdicts[i].name] == verdicts[i].outcome.value)
          && (verdicts[i].outcome.Rejected? <==> Reported(errors, verdicts[i].name)))
    && (forall name | name in m :: !Reported(errors, name))
    && (forall k, l | 0 <= k < l < |errors| :: errors[k].name != errors[l].name)
  }

  /** With distinct names every field ends in exactly one of: an error, a stored value, or neither. */
  lemma FieldsPartition(lib: Library, fields: seq<Field>, loc: Location, ctx: RequestContext)
    requires forall i, j | 0 <= i < j < |fields| :: fields[i].name != fields[j].name
    ensures Partitioned(Verdicts(lib, fields, loc, ctx),
                        FieldsOf(lib, fields, loc, ctx), ErrorsOf(lib, fields, loc, ctx))
  {
    VerdictsPartition(Verdicts(lib, fields, loc, ctx));
  }

  lemma VerdictsPartition(verdicts: seq<Verdict>)
    requires DistinctNames(verdicts)
    ensures Partitioned(verdicts, Merge(verdicts), Errors(verdicts))
  {
    var m, errors := Merge(verdicts), Errors(verdicts);
    var at := ErrorsReportRejected(verdicts);
    forall i: nat | i < |verdicts|
      ensures verdicts[i].outcome.Stored? <==> verdicts[i].name in m
      ensures verdicts[i].outcome.Stored? ==> m[verdicts[i].name] == verdicts[i].outcome.value
      ensures verdicts[i].outcome.Rejected? <==> Reported(errors, verdicts[i].name)
    {
      LastStoredWins(verdicts, verdicts[i].name);
      if verdicts[i].outcome.Stored? {
        assert LastStored(verdicts, verdicts[i].name, i);
      }
      if verdicts[i].outcome.Rejected? {
        var k :| 0 <= k < |at| && at[k] == i;
        assert errors[k].name == verdicts[i].name;
      }
    }
    forall name | name in m ensures !Reported(errors, name) {
      LastStoredWins(verdicts, name);
      var i: nat :| LastStored(verdicts, name, i);
      assert !verdicts[i].outcome.Rejected?;
    }
  }

  /**
   Soundness of an accepted form, for any definition: every field accepted all that was
   submitted for it, every required field is in the result, and every stored value is the
   typed form of what was submitted for a field of that name.
   */
  lemma AcceptedFormIsSound(lib: Library, fields: seq<Field>, loc: Location, ctx: RequestContext)
    requires ErrorsOf(lib, fields, loc, ctx) == []
    ensures forall i | 0 <= i < |fields| ::
              && Submitted(fields[i], ctx).Success?
              && Acceptable(lib, fields[i], Submitted(fields[i], ctx).value, loc)
              && (fields[i].required ==> fields[i].name in FieldsOf(lib, fields, loc, ctx))
    ensures forall name | name in FieldsOf(lib, fields, loc, ctx) ::
              exists i :: 0 <= i < |fields| && fields[i].name == name
                          && Submitted(fields[i], ctx).Success?
                          && StoredFrom(lib, fields[i], Submitted(fields[i], ctx).value, loc,
                                        FieldsOf(lib, fields, loc, ctx)[name])
  {
    var verdicts := Verdicts(lib, fields, loc, ctx);
    var m := Merge(verdicts);
    var at := ErrorsReportRejected(verdicts);
    forall i: nat | i < |fields|
      ensures Submitted(fields[i], ctx).Success? && Acceptable(lib, fields[i], Submitted(fields[i], ctx).value, loc)
      ensures fields[i].required ==> fields[i].name in m
    {
      FieldVerdict(lib, fields[i], loc, ctx);
      assert !verdicts[i].outcome.Rejected?;
      if verdicts[i].outcome.Stored? {
        StoredStays(verdicts, i);
      }
    }
    forall name | name in m
      ensures exists i :: 0 <= i < |fields| && fields[i].name == name && Submitted(fields[i], ctx).Success?
                          && StoredFrom(lib, fields[i], Submitted(fields[i], ctx).value, loc, m[name])
    {
      LastStoredWins(verdicts, name);
      var i: nat :| LastStored(verdicts, name, i);
      FieldVerdict(lib, fields[i], loc, ctx);
      assert StoredFrom(lib, fields[i], Submitted(fields[i], ctx).value, loc, m[name]);
    }
  }

  lemma {:induction false} StoredStays(verdicts: seq<Verdict>, i: nat)
    requires i < |verdicts| && verdicts[i].outcome.Stored?
    ensures verdicts[i].name in Merge(verdicts)
  {
    var n := |verdicts| - 1;
    if i < n {
      assert verdicts[..n][i] == verdicts[i];
      StoredStays(verdicts[..n], i);
    }
  }

  // ---------------------------------------------------------------- two requests

  /** Whether the default of the field counts as submitted: the user cannot edit it, or it is a checkbox left alone. */
  predicate TakesDefault(field: Field, ctx: RequestContext) {
    field.hidden || field.disabled || (field.typ == TBoolean && All(ctx.form, field.name) == [])
  }

  /** Two requests that agree on what the user is allowed to edit, and on the defaults that are taken instead. */
  ghost predicate AgreeOnEditable(fields: seq<Field>, a: RequestContext, b: RequestContext) {
    forall i | 0 <= i < |fields| ::
      && (TakesDefault(fields[i], a) ==> fields[i].default.String(a) == fields[i].default.String(b))
      && (!fields[i].hidden && !fields[i].disabled ==> All(a.form, fields[i].name) == All(b.form, fields[i].name))
  }

  /** What is posted for hidden, disabled or undefined names has no influence on values or errors. */
  lemma OnlyEditableInputMatters(lib: Library, fields: seq<Field>, loc: Location, a: RequestContext, b: RequestContext)
    requires AgreeOnEditable(fields, a, b)
    ensures FieldsOf(lib, fields, loc, a) == FieldsOf(lib, fields, loc, b)
    ensures ErrorsOf(lib, fields, loc, a) == ErrorsOf(lib, fields, loc, b)
  {
    hide FieldOutcome, Merge, Errors, TakesDefault;
    forall i | 0 <= i < |fields| ensures FieldOutcome(lib, fields[i], loc, a) == FieldOutcome(lib, fields[i], loc, b) {
      assert AgreeOnEditable([fields[i]], a, b);
      OutcomeIgnoresContext(lib, fields[i], loc, a, b);
    }
    assert Verdicts(lib, fields, loc, a) == Verdicts(lib, fields, loc, b);
  }

  lemma OutcomeIgnoresContext(lib: Library, field: Field, loc: Location, a: RequestContext, b: RequestContext)
    requires AgreeOnEditable([field], a, b)
    ensures FieldOutcome(lib, field, loc, a) == FieldOutcome(lib, field, loc, b)
  {
    hide ParsedValues, FirstOccurrences, Allowed;
    assert field == [field][0];
    var s := Submitted(field, a);
    assert s == Submitted(field, b);
    if s.Success? {
      ParsedValuesIgnoreContext(lib, field, FirstOccurrences(s.value), loc, a, b);
    }
  }

  lemma {:induction false} ParsedValuesIgnoreContext(lib: Library, field: Field, values: seq<Bytes>,
                                                     loc: Location, a: RequestContext, b: RequestContext)
    ensures ParsedValues(lib, field, values, loc, a) == ParsedValues(lib, field, values, loc, b)
  {
    if values != [] {
      var n := |values| - 1;
      ParsedValuesIgnoreContext(lib, field, values[..n], loc, a, b);
      if !Blank(values[n]) {
        DefaultNeverSubstituted(lib, field, values[n], loc, a);
        DefaultNeverSubstituted(lib, field, values[n], loc, b);
      }
    }
  }

  /** The error that the field parser keeps for an empty required value is never reported by the form parser. */
  lemma RequiredErrorIsUnreachable(lib: Library, fields: seq<Field>, loc: Location, ctx: RequestContext)
    ensures forall k | 0 <= k < |ErrorsOf(lib, fields, loc, ctx)| ::
              ErrorsOf(lib, fields, loc, ctx)[k].error != RequiredField
  {
    var errors := ErrorsOf(lib, fields, loc, ctx);
    var at := ErrorsReportRejected(Verdicts(lib, fields, loc, ctx));
    forall k | 0 <= k < |errors| ensures errors[k].error != RequiredField {
      if Submitted(fields[at[k]], ctx).Success? {
        RejectionOrder(lib, fields[at[k]], loc, ctx);
      }
    }
  }
}
