/** What a request is answered with: status, messages and what the template of the page is given. */
module Pages {
  import opened Wrappers
  import opened QueryEncoding
  import opened FormValues
  import opened Session
  import opened Schema
  import opened Web
  import opened Engine
  import opened Gates
  import opened Submissions

  // ---------------------------------------------------------------- defaults

  /** Neither the body nor the address of the request has a value for the field. */
  predicate NotSent(field: Field, http: Http) {
    All(http.PostForm(), field.name) == [] && All(http.query, field.name) == []
  }

  /** Field `i` is the first whose default has to be rendered and fails. */
  ghost predicate FirstFailing(fields: seq<Field>, http: Http, ctx: RequestContext, i: nat, reason: Bytes) {
    && i < |fields| && NotSent(fields[i], http) && fields[i].default.String(ctx) == Failure(reason)
    && forall j | 0 <= j < i && NotSent(fields[j], http) :: fields[j].default.String(ctx).Success?
  }

  /** Fields that were not sent show their rendered default, the last field of a name deciding. */
  ghost predicate ShowsDefaults(
    fields: seq<Field>, http: Http, ctx: RequestContext, defaults: map<Bytes, DefaultValue>
  ) {
    forall i: nat | LastOfName(fields, i) && NotSent(fields[i], http) ::
      && fields[i].default.String(ctx).Success? && fields[i].name in defaults
      && defaults[fields[i].name] == One(fields[i].default.String(ctx).value)
  }

  ghost predicate DefaultsMean(
    fields: seq<Field>, http: Http, ctx: RequestContext, r: Result<map<Bytes, DefaultValue>, Bytes>
  ) {
    match r
    case Failure(reason) => exists i: nat :: FirstFailing(fields, http, ctx, i, reason)
    case Success(m) =>
      && (forall i | 0 <= i < |fields| && NotSent(fields[i], http) :: fields[i].default.String(ctx).Success?)
      && ShowsDefaults(fields, http, ctx, m)
      && forall name :: name in m <==> HasName(fields, name)
  }

  ghost predicate HasName(fields: seq<Field>, name: Bytes) {
    exists i :: 0 <= i < |fields| && fields[i].name == name
  }

  lemma {:induction false} DefaultsRendered(fields: seq<Field>, http: Http, ctx: RequestContext)
    ensures DefaultsMean(fields, http, ctx, DefaultsOf(fields, http, ctx))
  {
    hide DefaultsMean, DefaultFor;
    if fields == [] {
      NothingToShow(http, ctx);
    } else {
      var n := |fields| - 1;
      DefaultsRendered(fields[..n], http, ctx);
      var before, r := DefaultsOf(fields[..n], http, ctx), DefaultsOf(fields, http, ctx);
      if before.Failure? {
        EarlierFails(fields, http, ctx, before.error);
      } else if r.Failure? {
        LastFails(fields, http, ctx, before.value, r.error);
      } else {
        LastIsShown(fields, http, ctx, before.value, r.value);
      }
    }
  }

  lemma NothingToShow(http: Http, ctx: RequestContext)
    ensures DefaultsMean([], http, ctx, Success(map[]))
  {
  }

  lemma EarlierFails(fields: seq<Field>, http: Http, ctx: RequestContext, reason: Bytes)
    requires fields != [] && DefaultsMean(fields[..|fields| - 1], http, ctx, Failure(reason))
    ensures DefaultsMean(fields, http, ctx, Failure(reason))
  {
    var init := fields[..|fields| - 1];
    var i: nat :| FirstFailing(init, http, ctx, i, reason);
    assert forall j | 0 <= j < |init| :: init[j] == fields[j];
    assert FirstFailing(fields, http, ctx, i, reason);
  }

  lemma LastFails(fields: seq<Field>, http: Http, ctx: RequestContext, m: map<Bytes, DefaultValue>, reason: Bytes)
    requires fields != [] && DefaultsMean(fields[..|fields| - 1], http, ctx, Success(m))
    requires DefaultFor(fields[|fields| - 1], http, ctx) == Failure(reason)
    ensures DefaultsMean(fields, http, ctx, Failure(reason))
  {
    var n := |fields| - 1;
    assert forall j | 0 <= j < n :: fields[..n][j] == fields[j];
    assert FirstFailing(fields, http, ctx, n, reason);
  }

  lemma LastIsShown(fields: seq<Field>, http: Http, ctx: RequestContext,
                    m: map<Bytes, DefaultValue>, shown: map<Bytes, DefaultValue>)
    requires fields != [] && DefaultsMean(fields[..|fields| - 1], http, ctx, Success(m))
    requires DefaultFor(fields[|fields| - 1], http, ctx).Success?
    requires shown == m[fields[|fields| - 1].name := DefaultFor(fields[|fields| - 1], http, ctx).value]
    ensures DefaultsMean(fields, http, ctx, Success(shown))
  {
    var n := |fields| - 1;
    var init := fields[..n];
    forall i: nat | i < |fields| && NotSent(fields[i], http) ensures fields[i].default.String(ctx).Success? {
      assert i < n ==> init[i] == fields[i];
    }
    forall i: nat | LastOfName(fields, i) && NotSent(fields[i], http)
      ensures fields[i].name in shown && shown[fields[i].name] == One(fields[i].default.String(ctx).value)
    {
      if i < n {
        assert init[i] == fields[i] && LastOfName(init, i);
      }
    }
    OneMoreName(fields, m, shown);
  }

  lemma OneMoreName(fields: seq<Field>, m: map<Bytes, DefaultValue>, shown: map<Bytes, DefaultValue>)
    requires fields != [] && shown.Keys == m.Keys + {fields[|fields| - 1].name}
    requires forall name :: name in m <==> HasName(fields[..|fields| - 1], name)
    ensures forall name :: name in shown <==> HasName(fields, name)
  {
    var n := |fields| - 1;
    forall name ensures name in shown <==> HasName(fields, name) {
      if name in m {
        var i :| 0 <= i < n && fields[..n][i].name == name;
        assert fields[i].name == name;
      }
      if i :| 0 <= i < |fields| && fields[i].name == name {
        assert i < n ==> fields[..n][i].name == name;
      }
      assert name == fields[n].name ==> name in shown;
    }
  }

  // ---------------------------------------------------------------- what the template is given

  /** The description is rendered, and so is every default that the page needs. */
  ghost predicate AllRender(cfg: FormConfig, http: Http, ctx: RequestContext) {
    && cfg.description.String(ctx).Success?
    && forall i | 0 <= i < |cfg.fields| && NotSent(cfg.fields[i], http) :: cfg.fields[i].default.String(ctx).Success?
  }

  /** What failed first. */
  ghost predicate FailsFirst(cfg: FormConfig, http: Http, ctx: RequestContext, reason: Bytes) {
    if cfg.description.String(ctx).Failure? then cfg.description.String(ctx) == Failure(reason)
    else exists i: nat :: FirstFailing(cfg.fields, http, ctx, i, reason)
  }

  /** The page holds description and defaults, or else a first message that says what failed to render. */
  ghost predicate Prepares(cfg: FormConfig, http: Http, ctx: RequestContext, o: Effect) {
    && ("Description" in o.state <==> cfg.description.String(ctx).Success?)
    && ("Description" in o.state ==> cfg.description.String(ctx) == Success(DescriptionText(o.state["Description"])))
    && ("Defaults" in o.state <==> AllRender(cfg, http, ctx))
    && ("Defaults" in o.state ==>
          && o.state["Defaults"].Defaults?
          && ShowsDefaults(cfg.fields, http, ctx, o.state["Defaults"].values)
          && KeepsInput(cfg.fields, http, o.state["Defaults"].values))
    && (!AllRender(cfg, http, ctx) ==>
          && o.messages != [] && o.messages[0].name == [] && o.messages[0].text.DefaultsFailed?
          && FailsFirst(cfg, http, ctx, o.messages[0].text.reason))
  }

  function DescriptionText(v: StateValue): Bytes {
    if v.Description? then v.text else []
  }

  lemma PreparedMeaning(cfg: FormConfig, http: Http, session: SessionMap, state: State, o: Effect)
    requires "Description" !in state && "Defaults" !in state
    requires var p := PreRendered(cfg, http, session, state);
      && (forall k | k in ["Description", "Defaults"] ::
            (k in o.state <==> k in p.state) && (k in p.state ==> o.state[k] == p.state[k]))
      && (p.failure.Some? ==> o.messages != [] && o.messages[0] == FlashMessage([], DefaultsFailed(p.failure.value)))
    ensures Prepares(cfg, http, Context(http, session), o)
  {
    hide DefaultsOf, ShowsDefaults, KeepsInput, Context;
    var ctx := Context(http, session);
    DefaultsRendered(cfg.fields, http, ctx);
    assert "Description" in ["Description", "Defaults"] && "Defaults" in ["Description", "Defaults"];
    if DefaultsOf(cfg.fields, http, ctx).Success? {
      DefaultsKeepInput(cfg.fields, http, ctx);
    } else {
      var i: nat :| FirstFailing(cfg.fields, http, ctx, i, DefaultsOf(cfg.fields, http, ctx).error);
      assert !AllRender(cfg, http, ctx);
    }
  }

  /** What the rest of the handling adds to state and messages. */
  lemma AdmittedKeeps(cfg: FormConfig, http: Http, env: Environment, session: SessionMap, state: State)
    ensures var o, p := Admit(cfg, http, env, session, state), PreRendered(cfg, http, session, state);
      && (o.state == p.state
          || (env.reply.Saved? && o.state == p.state["Result" := Web.Result(env.reply.record, false)])
          || (env.reply.Refused? && o.state == p.state["Result" := Web.Result(env.reply.record, true)]))
      && (p.failure.Some? ==> o.messages != [] && o.messages[0] == FlashMessage([], DefaultsFailed(p.failure.value)))
  {
    hide PreRendered, ErrorsOf, FieldsOf, LocationOf, Context, Flashed;
  }

  /** Every page behind the gates, the form page above all, shows what was entered and else the rendered defaults. */
  lemma PageIsPrepared(cfg: FormConfig, http: Http, env: Environment) returns (ctx: RequestContext)
    requires Admitted(cfg, http, env)
    ensures SeesRequest(cfg, http, ctx) && Prepares(cfg, http, ctx, Handle(cfg, http, env))
  {
    hide Handle, Admit, CheckedCode, WorkingSession, PreRendered, Prepares, Admitted;
    var session, state := WorkingSession(cfg, http), CheckedCode(cfg, http).state;
    ctx := Context(http, session);
    HandledBy(cfg, http, env);
    NothingPrepared(cfg, http);
    AdmittedKeeps(cfg, http, env, session, state);
    PreparedMeaning(cfg, http, session, state, Handle(cfg, http, env));
  }

  lemma NothingPrepared(cfg: FormConfig, http: Http)
    ensures "Description" !in CheckedCode(cfg, http).state && "Defaults" !in CheckedCode(cfg, http).state
    ensures "Result" !in CheckedCode(cfg, http).state
  {
  }

  // ---------------------------------------------------------------- status, messages and result

  /** The request only asks for the form: a GET, or a post that is marked as a start. */
  predicate OnlyAsks(cfg: FormConfig, http: Http) {
    http.verb == GET || ValueAt(WorkingSession(cfg, http), FRESH) == TRUE
  }

  /** Every page has its status, and the form page one for each reason to show it. */
  lemma Statuses(cfg: FormConfig, http: Http, env: Environment)
    ensures var o := Handle(cfg, http, env);
      match o.view
      case ViewForbidden => o.status == 403
      case ViewCode => o.status == 401
      case ViewSuccess => o.status == 200
      case ViewFail => o.status == 500
      case ViewForm => o.status == if OnlyAsks(cfg, http) then 200 else if !CaptchasPass(http, env) then 400 else 422
  {
    hide Handle, CheckedCode, Admit, Admitted, WorkingSession, CaptchasPass;
    if Admitted(cfg, http, env) {
      HandledBy(cfg, http, env);
      FormStatus(cfg, http, env, WorkingSession(cfg, http), CheckedCode(cfg, http).state);
    } else {
      TurnedAway(cfg, http, env);
    }
  }

  /** Answers before the gates are passed. */
  lemma TurnedAway(cfg: FormConfig, http: Http, env: Environment)
    requires !Admitted(cfg, http, env)
    ensures var o := Handle(cfg, http, env);
      || (o.view == ViewForbidden && o.status == 403
          && o.messages == if cfg.xsrf && !http.XsrfVerified() then [FlashMessage([], XsrfFailed)] else [])
      || (o.view == ViewCode && o.status == 401
          && o.messages == if http.verb == POST then [FlashMessage([], InvalidCode)] else [])
  {
    hide CheckedCode, Admit;
    NoCheckWithoutCodes(cfg, http);
  }

  lemma FormStatus(cfg: FormConfig, http: Http, env: Environment, session: SessionMap, state: State)
    ensures var o := Admit(cfg, http, env, session, state);
      match o.view
      case ViewSuccess => o.status == 200
      case ViewFail => o.status == 500
      case ViewForm =>
        o.status == if http.verb == GET || ValueAt(session, FRESH) == TRUE then 200
                    else if !CaptchasPass(http, env) then 400 else 422
      case _ => false
  {
    hide PreRendered, ErrorsOf, FieldsOf, LocationOf, Context, Flashed;
  }

  /** One message for each field error, in the order of the errors and under the name of the field. */
  ghost predicate Names(messages: seq<FlashMessage>, errors: seq<FieldError>) {
    && |messages| == |errors|
    && forall i | 0 <= i < |errors| ::
         messages[i].name == errors[i].name && messages[i].text == Invalid(errors[i].error)
  }

  /** The messages behind the one about what failed to render. */
  ghost predicate Explains(cfg: FormConfig, http: Http, env: Environment, o: Effect, more: seq<FlashMessage>) {
    match o.view
    case ViewForm =>
      if OnlyAsks(cfg, http) then more == []
      else if !CaptchasPass(http, env) then more == [FlashMessage([], InvalidCaptcha)]
      else Names(more, SubmittedErrors(cfg, http, env)) && more != []
    case ViewFail => more == [FlashMessage([], StoreFailed)]
    case _ => more == []
  }

  /** What a page says: why the request was turned away, or what is wrong with what was sent. */
  lemma Messages(cfg: FormConfig, http: Http, env: Environment) returns (more: seq<FlashMessage>)
    ensures var o := Handle(cfg, http, env);
      match o.view
      case ViewForbidden =>
        o.messages == if cfg.xsrf && !http.XsrfVerified() then [FlashMessage([], XsrfFailed)] else []
      case ViewCode => o.messages == if http.verb == POST then [FlashMessage([], InvalidCode)] else []
      case _ =>
        && Explains(cfg, http, env, o, more)
        && (o.messages == more || exists reason :: o.messages == [FlashMessage([], DefaultsFailed(reason))] + more)
  {
    hide Handle, CheckedCode, Admit, Admitted, Explains, WorkingSession;
    more := [];
    if Admitted(cfg, http, env) {
      HandledBy(cfg, http, env);
      more := MessagesBehind(cfg, http, env, WorkingSession(cfg, http), CheckedCode(cfg, http).state);
    } else {
      TurnedAway(cfg, http, env);
    }
  }

  lemma MessagesBehind(cfg: FormConfig, http: Http, env: Environment, session: SessionMap, state: State)
    returns (more: seq<FlashMessage>)
    requires session == WorkingSession(cfg, http)
    ensures var o := Admit(cfg, http, env, session, state);
      && o.view != ViewForbidden && o.view != ViewCode && Explains(cfg, http, env, o, more)
      && (o.messages == more || exists reason :: o.messages == [FlashMessage([], DefaultsFailed(reason))] + more)
  {
    hide PreRendered, WorkingSession, Explains, Challenge;
    var p := PreRendered(cfg, http, session, state);
    var before := PrepareMessages(p.failure);
    if OnlyAsks(cfg, http) {
      more := [];
      AskedExplains(cfg, http, env, Admit(cfg, http, env, session, state));
      assert before + more == before;
    } else {
      more := ChallengeMessages(cfg, http, env, before, p.state);
    }
    assert before == [] ==> before + more == more;
  }

  lemma AskedExplains(cfg: FormConfig, http: Http, env: Environment, o: Effect)
    requires OnlyAsks(cfg, http) && o.view == ViewForm
    ensures Explains(cfg, http, env, o, [])
  {
  }

  lemma ChallengeMessages(cfg: FormConfig, http: Http, env: Environment, before: seq<FlashMessage>, state: State)
    returns (more: seq<FlashMessage>)
    requires !OnlyAsks(cfg, http)
    ensures var o := Challenge(cfg, http, env, WorkingSession(cfg, http) - {FRESH}, before, state);
      && o.view != ViewForbidden && o.view != ViewCode
      && Explains(cfg, http, env, o, more) && o.messages == before + more
  {
    hide ErrorsOf, FieldsOf, LocationOf, Context, WorkingSession, OnlyAsks;
    var errors := SubmittedErrors(cfg, http, env);
    more :=
      if !CaptchasPass(http, env) then [FlashMessage([], InvalidCaptcha)]
      else if errors != [] then Flashed(errors)
      else if env.reply.Refused? then [FlashMessage([], StoreFailed)]
      else [];
    assert before + [] == before;
  }

  /** A result page shows what the storage answered, and no other page shows a result. */
  lemma ResultShown(cfg: FormConfig, http: Http, env: Environment)
    ensures var o := Handle(cfg, http, env);
      && ("Result" in o.state <==> o.stored.Some?)
      && ("Result" in o.state ==> o.state["Result"] == Web.Result(env.reply.record, env.reply.Refused?))
  {
    hide CheckedCode, Admit;
    NothingPrepared(cfg, http);
    ResultBehind(cfg, http, env, WorkingSession(cfg, http), CheckedCode(cfg, http).state);
  }

  lemma ResultBehind(cfg: FormConfig, http: Http, env: Environment, session: SessionMap, state: State)
    requires "Result" !in state
    ensures var o := Admit(cfg, http, env, session, state);
      && ("Result" in o.state <==> o.stored.Some?)
      && ("Result" in o.state ==> o.state["Result"] == Web.Result(env.reply.record, env.reply.Refused?))
  {
    hide DefaultsOf, ErrorsOf, FieldsOf, LocationOf, Context, Flashed;
  }

  /** A page behind the code check shows the code that opened it. */
  lemma CodeShown(cfg: FormConfig, http: Http, env: Environment)
    ensures var o := Handle(cfg, http, env);
      && ("code" in o.state <==> Admitted(cfg, http, env) && cfg.HasCodeAccess())
      && ("code" in o.state ==> o.session.Some? && o.state["code"] == Code(ValueAt(o.session.value, ACCESS_CODE)))
  {
    hide Handle, Admit, Admitted;
    if Admitted(cfg, http, env) {
      HandledBy(cfg, http, env);
      CodeBehind(cfg, http, env, WorkingSession(cfg, http), CheckedCode(cfg, http).state);
      CodeChecked(cfg, http, env);
    } else {
      NoCodeYet(cfg, http, env);
    }
  }

  lemma CodeChecked(cfg: FormConfig, http: Http, env: Environment)
    requires Admitted(cfg, http, env)
    ensures var state := CheckedCode(cfg, http).state;
      && ("code" in state <==> cfg.HasCodeAccess())
      && ("code" in state ==> state["code"] == Code(ValueAt(WorkingSession(cfg, http), ACCESS_CODE)))
  {
  }

  lemma NoCodeYet(cfg: FormConfig, http: Http, env: Environment)
    requires !Admitted(cfg, http, env)
    ensures "code" !in Handle(cfg, http, env).state
  {
    hide Admit;
  }

  lemma CodeBehind(cfg: FormConfig, http: Http, env: Environment, session: SessionMap, state: State)
    ensures var o := Admit(cfg, http, env, session, state);
      && ("code" in o.state <==> "code" in state) && ("code" in state ==> o.state["code"] == state["code"])
      && o.session.Some? && ValueAt(o.session.value, ACCESS_CODE) == ValueAt(session, ACCESS_CODE)
  {
    hide Admit, PreRendered;
    AdmittedKeeps(cfg, http, env, session, state);
    AdmittedSession(cfg, http, env, session, state);
    PreRenderedKeepsCode(cfg, http, session, state);
  }

  lemma PreRenderedKeepsCode(cfg: FormConfig, http: Http, session: SessionMap, state: State)
    ensures var p := PreRendered(cfg, http, session, state);
      ("code" in p.state <==> "code" in state) && ("code" in state ==> p.state["code"] == state["code"])
  {
    hide DefaultsOf;
  }

  /** Every page is given the definition of the form. */
  lemma FormGiven(cfg: FormConfig, http: Http, env: Environment)
    ensures var o := Handle(cfg, http, env); "Form" in o.state && o.state["Form"] == FormDefinition
  {
    hide Admit;
    FormBehind(cfg, http, env, WorkingSession(cfg, http), CheckedCode(cfg, http).state);
  }

  lemma FormBehind(cfg: FormConfig, http: Http, env: Environment, session: SessionMap, state: State)
    requires "Form" in state && state["Form"] == FormDefinition
    ensures var o := Admit(cfg, http, env, session, state); "Form" in o.state && o.state["Form"] == FormDefinition
  {
    hide Admit, DefaultsOf;
    AdmittedKeeps(cfg, http, env, session, state);
  }
}
