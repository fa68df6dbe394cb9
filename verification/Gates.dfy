/** What holds of every single request, whoever sends it and whatever the environment answers. */
module Gates {
  import opened Wrappers
  import opened QueryEncoding
  import opened FormValues
  import opened Session
  import opened Schema
  import opened Web
  import opened Engine

  /** The session that the handler works on once the code was checked. */
  function WorkingSession(cfg: FormConfig, http: Http): SessionMap {
    CheckedCode(cfg, http).session.GetOr(SessionOf(http.PostForm()))
  }

  /** The request passes token, policy and code. */
  predicate Admitted(cfg: FormConfig, http: Http, env: Environment) {
    && (cfg.xsrf ==> http.XsrfVerified())
    && IsAllowed(cfg, http, env)
    && (cfg.HasCodeAccess() ==> http.verb == POST)
    && CheckedCode(cfg, http).valid
  }

  /** It is not a start either: its data is looked at. */
  predicate Processed(cfg: FormConfig, http: Http, env: Environment) {
    && Admitted(cfg, http, env)
    && ValueAt(WorkingSession(cfg, http), FRESH) != TRUE
    && http.verb != GET
  }

  predicate CaptchasPass(http: Http, env: Environment) {
    http.verb == POST ==> forall i | 0 <= i < |env.captchas| :: env.captchas[i]
  }

  /** The data of a request as the form parser sees it. */
  function SubmittedErrors(cfg: FormConfig, http: Http, env: Environment): seq<FieldError> {
    var session := WorkingSession(cfg, http) - {FRESH};
    ErrorsOf(env.lib, cfg.fields, LocationOf(env.lib, session), Context(http, session))
  }

  function SubmittedFields(cfg: FormConfig, http: Http, env: Environment): map<Bytes, Value> {
    var session := WorkingSession(cfg, http) - {FRESH};
    FieldsOf(env.lib, cfg.fields, LocationOf(env.lib, session), Context(http, session))
  }

  /** What the session of a rendered page holds, by view. Forms and results always hold a valid code. */
  ghost predicate SessionFits(cfg: FormConfig, http: Http, o: Effect) {
    match o.view
    case ViewForbidden => o.session.None?
    case ViewCode =>
      && cfg.HasCodeAccess()
      && (o.session.Some? ==>
            && http.verb == POST
            && (ACCESS_CODE in o.session.value <==> ACCESS_CODE in SessionOf(http.PostForm()))
            && (ACCESS_CODE in o.session.value ==>
                  && o.session.value[ACCESS_CODE] == SessionOf(http.PostForm())[ACCESS_CODE]
                  && (o.session.value[ACCESS_CODE] !in cfg.codes || o.session.value[ACCESS_CODE] == [])))
    case ViewForm =>
      && o.session.Some? && FRESH !in o.session.value
      && (cfg.HasCodeAccess() ==> ValueAt(o.session.value, ACCESS_CODE) in cfg.codes && ACCESS_CODE in o.session.value)
    case _ =>
      && o.session.Some? && FRESH in o.session.value && o.session.value[FRESH] == TRUE
      && (cfg.HasCodeAccess() ==> ValueAt(o.session.value, ACCESS_CODE) in cfg.codes && ACCESS_CODE in o.session.value)
  }

  /** Behind the gates the session loses the start marker, and gets it back for result pages. */
  lemma AdmittedSession(cfg: FormConfig, http: Http, env: Environment, session: SessionMap, state: State)
    ensures var o := Admit(cfg, http, env, session, state);
      || (o.view == ViewForm && o.session == Some(session - {FRESH}))
      || ((o.view == ViewSuccess || o.view == ViewFail) && o.session == Some((session - {FRESH})[FRESH := TRUE]))
  {
    hide PreRendered, ErrorsOf, FieldsOf, LocationOf, Context;
  }

  lemma CheckedSession(cfg: FormConfig, http: Http)
    ensures var check := CheckedCode(cfg, http);
      var posted := SessionOf(http.PostForm());
      && (check.session.Some? ==>
            && http.verb == POST && cfg.HasCodeAccess()
            && (forall k | k != ACCESS_CODE && k != FRESH :: k in check.session.value <==> k in posted)
            && (forall k | k != ACCESS_CODE && k != FRESH && k in posted :: check.session.value[k] == posted[k]))
      && (check.valid && cfg.HasCodeAccess() ==>
            check.session.Some? && ACCESS_CODE in check.session.value && check.session.value[ACCESS_CODE] in cfg.codes)
      && (!check.valid && check.session.Some? ==>
            && (ACCESS_CODE in check.session.value <==> ACCESS_CODE in posted)
            && (ACCESS_CODE in check.session.value ==>
                  && check.session.value[ACCESS_CODE] == posted[ACCESS_CODE]
                  && (check.session.value[ACCESS_CODE] !in cfg.codes || check.session.value[ACCESS_CODE] == [])))
  {
  }

  /** A request gets a page without session, or the code page, or what follows behind the gates. */
  lemma HandledBy(cfg: FormConfig, http: Http, env: Environment)
    ensures var o := Handle(cfg, http, env);
      var check := CheckedCode(cfg, http);
      if Admitted(cfg, http, env) then
        o == Admit(cfg, http, env, WorkingSession(cfg, http), check.state)
      else
        && o.stored == None && !o.notified
        && ((o.view == ViewForbidden && o.session == None)
            || (o.view == ViewCode && cfg.HasCodeAccess() && !check.valid && o.session == check.session))
  {
    hide CheckedCode, Admit;
    NoCheckWithoutCodes(cfg, http);
  }

  lemma NoCheckWithoutCodes(cfg: FormConfig, http: Http)
    ensures cfg.HasCodeAccess() && CheckedCode(cfg, http).valid ==> http.verb == POST
    ensures !cfg.HasCodeAccess() ==> CheckedCode(cfg, http).valid
    ensures !cfg.HasCodeAccess() || http.verb != POST ==> CheckedCode(cfg, http).session == None
  {
  }

  /** What it means for an effect to store `values` when `gate` holds. */
  ghost predicate StoresIf(gate: bool, values: map<Bytes, Value>, env: Environment, o: Effect) {
    && (o.stored.Some? <==> gate)
    && (o.stored.Some? ==> o.stored.value == values)
    && (o.notified <==> o.stored.Some? && env.reply.Saved?)
    && (o.stored.Some? <==> o.view == ViewSuccess || o.view == ViewFail)
    && (o.view == ViewSuccess <==> o.notified)
  }

  lemma ChallengeStores(cfg: FormConfig, http: Http, env: Environment, session: SessionMap,
                        messages: seq<FlashMessage>, state: State)
    ensures var loc, ctx := LocationOf(env.lib, session), Context(http, session);
      StoresIf(CaptchasPass(http, env) && ErrorsOf(env.lib, cfg.fields, loc, ctx) == [],
               FieldsOf(env.lib, cfg.fields, loc, ctx), env,
               Challenge(cfg, http, env, session, messages, state))
  {
    hide ErrorsOf, FieldsOf, LocationOf, Context;
  }

  lemma AdmitStores(cfg: FormConfig, http: Http, env: Environment, session: SessionMap, state: State)
    ensures var loc, ctx := LocationOf(env.lib, session - {FRESH}), Context(http, session - {FRESH});
      var starts := ValueAt(session, FRESH) == TRUE || http.verb == GET;
      StoresIf(!starts && CaptchasPass(http, env) && ErrorsOf(env.lib, cfg.fields, loc, ctx) == [],
               FieldsOf(env.lib, cfg.fields, loc, ctx), env,
               Admit(cfg, http, env, session, state))
  {
    hide ErrorsOf, FieldsOf, LocationOf, Context, Challenge, CaptchasPass, PreRendered;
    var prepared := PreRendered(cfg, http, session, state);
    ChallengeStores(cfg, http, env, session - {FRESH}, PrepareMessages(prepared.failure), prepared.state);
  }

  /**
   Storage is called exactly when every gate is passed and no field is in error, with what
   the form parser made of the request; notifications follow exactly a successful store;
   and result pages are shown exactly when storage was called.
   */
  lemma StoredExactlyBehindTheGates(cfg: FormConfig, http: Http, env: Environment)
    ensures var o := Handle(cfg, http, env);
      && (o.stored.Some? <==>
            Processed(cfg, http, env) && CaptchasPass(http, env) && SubmittedErrors(cfg, http, env) == [])
      && (o.stored.Some? ==> o.stored.value == SubmittedFields(cfg, http, env))
      && (o.notified <==> o.stored.Some? && env.reply.Saved?)
      && (o.stored.Some? <==> o.view == ViewSuccess || o.view == ViewFail)
      && (o.view == ViewSuccess <==> o.notified)
  {
    hide Handle, CheckedCode, Admit, WorkingSession, CaptchasPass, ErrorsOf, FieldsOf, LocationOf, Context;
    HandledBy(cfg, http, env);
    AdmitStores(cfg, http, env, WorkingSession(cfg, http), CheckedCode(cfg, http).state);
  }

  /** The carried code decides, and only a request without one is marked as a start. */
  lemma CarriedCodeDecides(cfg: FormConfig, http: Http)
    requires cfg.HasCodeAccess() && http.verb == POST
    ensures var posted := SessionOf(http.PostForm());
      var carried := ValueAt(posted, ACCESS_CODE);
      && (carried == [] ==>
            && ValueAt(WorkingSession(cfg, http), FRESH) == TRUE
            && (CheckedCode(cfg, http).valid <==> Get(http.PostForm(), ACCESS_CODE) in cfg.codes)
            && (CheckedCode(cfg, http).valid ==>
                  ValueAt(WorkingSession(cfg, http), ACCESS_CODE) == Get(http.PostForm(), ACCESS_CODE)))
      && (carried != [] ==>
            && ValueAt(WorkingSession(cfg, http), FRESH) == ValueAt(posted, FRESH)
            && (CheckedCode(cfg, http).valid <==> carried in cfg.codes))
  {
  }

  lemma PageSessions(cfg: FormConfig, http: Http, env: Environment)
    ensures SessionFits(cfg, http, Handle(cfg, http, env))
  {
    HandledBy(cfg, http, env);
    CheckedSession(cfg, http);
    AdmittedSession(cfg, http, env, WorkingSession(cfg, http), CheckedCode(cfg, http).state);
  }

  /** Entries other than the code and the start marker pass from the request to the page untouched. */
  lemma OtherEntriesPass(cfg: FormConfig, http: Http, env: Environment, k: Bytes)
    requires k != ACCESS_CODE && k != FRESH
    requires Handle(cfg, http, env).session.Some?
    ensures var s := Handle(cfg, http, env).session.value;
      && (k in s <==> k in SessionOf(http.PostForm()))
      && (k in s ==> s[k] == SessionOf(http.PostForm())[k])
  {
    HandledBy(cfg, http, env);
    CheckedSession(cfg, http);
    AdmittedSession(cfg, http, env, WorkingSession(cfg, http), CheckedCode(cfg, http).state);
  }

  // ---------------------------------------------------------------- who is turned away

  /**
   Exactly those are turned away who post without a matching token while tokens are on, and
   identified users whom the policy refuses, whatever they send. Nothing comes of it.
   */
  lemma ForbiddenExactly(cfg: FormConfig, http: Http, env: Environment)
    ensures var o := Handle(cfg, http, env);
      var token := http.FormValue(FORM_XSRF);
      && (o.view == ViewForbidden <==>
            || (cfg.xsrf && http.verb == POST && (token == [] || http.cookie != Some(token)))
            || (cfg.hasPolicy && http.credentials.Some? && !env.policy))
      && (o.view == ViewForbidden ==> o.stored == None && !o.notified && o.session == None && o.status == FORBIDDEN)
  {
    hide CheckedCode, Admit;
    AdmittedSession(cfg, http, env, WorkingSession(cfg, http), CheckedCode(cfg, http).state);
  }

  // ---------------------------------------------------------------- what the token guards

  /**
   With tokens on, a stored post had a matching token and is not stored without its cookie.
   Any other method is stored with or without one, but only of a form without codes.
   */
  lemma TokenGuardsPosts(cfg: FormConfig, http: Http, env: Environment)
    requires cfg.xsrf && Handle(cfg, http, env).stored.Some?
    ensures http.verb == POST ==> http.TokensMatch()
    ensures cfg.HasCodeAccess() ==> http.verb == POST
    ensures Handle(cfg, http.(cookie := None), env).stored.Some? <==> http.verb != POST
  {
    hide Handle, SessionOf, ErrorsOf, FieldsOf, LocationOf;
    StoredExactlyBehindTheGates(cfg, http, env);
    StoredExactlyBehindTheGates(cfg, http.(cookie := None), env);
  }

  /** An input of that kind: an empty PUT, without any cookie or captcha, to a form without fields, policy and codes. */
  lemma PutNeedsNoToken(cfg: FormConfig, http: Http, env: Environment)
    requires cfg.xsrf && !cfg.HasCodeAccess() && !cfg.hasPolicy && cfg.fields == []
    requires http.verb == PUT && http.body == map[] && http.cookie == None
    ensures Handle(cfg, http, env).stored == Some(map[])
  {
    hide Handle;
    StoredExactlyBehindTheGates(cfg, http, env);
    assert FRESH !in SessionOf(http.PostForm());
  }

  // ---------------------------------------------------------------- what the form page shows

  /** No later field has the name of field `i`: of several fields with one name the last decides what is shown. */
  ghost predicate LastOfName(fields: seq<Field>, i: nat) {
    i < |fields| && forall j | i < j < |fields| :: fields[j].name != fields[i].name
  }

  function Kept(field: Field, posted: seq<Bytes>): DefaultValue
    requires posted != []
  {
    if field.multiple && field.options != [] then Chosen(set v | v in posted) else One(posted[0])
  }

  ghost predicate KeepsInput(fields: seq<Field>, http: Http, defaults: map<Bytes, DefaultValue>) {
    forall i: nat | LastOfName(fields, i) && http.FormValuesOf(fields[i].name) != [] ::
      fields[i].name in defaults && defaults[fields[i].name] == Kept(fields[i], http.FormValuesOf(fields[i].name))
  }

  lemma {:induction false} DefaultsKeepInput(fields: seq<Field>, http: Http, ctx: RequestContext)
    requires DefaultsOf(fields, http, ctx).Success?
    ensures KeepsInput(fields, http, DefaultsOf(fields, http, ctx).value)
  {
    if fields != [] {
      var n := |fields| - 1;
      var init := fields[..n];
      DefaultsKeepInput(init, http, ctx);
      var m, shown := DefaultsOf(init, http, ctx).value, DefaultsOf(fields, http, ctx).value;
      forall i: nat | LastOfName(fields, i) && http.FormValuesOf(fields[i].name) != []
        ensures fields[i].name in shown && shown[fields[i].name] == Kept(fields[i], http.FormValuesOf(fields[i].name))
      {
        if i < n {
          assert init[i] == fields[i] && LastOfName(init, i);
          assert shown[fields[i].name] == m[fields[i].name];
        }
      }
    }
  }

  lemma NoDefaultsYet(cfg: FormConfig, http: Http)
    ensures "Defaults" !in CheckedCode(cfg, http).state
  {
  }

  lemma FormState(cfg: FormConfig, http: Http, env: Environment, session: SessionMap, state: State)
    requires Admit(cfg, http, env, session, state).view == ViewForm
    ensures Admit(cfg, http, env, session, state).state == PreRendered(cfg, http, session, state).state
  {
    hide PreRendered;
  }

  lemma DefaultsShown(cfg: FormConfig, http: Http, session: SessionMap, state: State)
    requires "Defaults" !in state && "Defaults" in PreRendered(cfg, http, session, state).state
    ensures DefaultsOf(cfg.fields, http, Context(http, session)).Success?
    ensures PreRendered(cfg, http, session, state).state["Defaults"]
         == Defaults(DefaultsOf(cfg.fields, http, Context(http, session)).value)
  {
    hide DefaultsOf;
  }

  /** A form page with defaults keeps for every posted name what the user had entered. */
  lemma FormPageKeepsInput(cfg: FormConfig, http: Http, env: Environment)
    requires Handle(cfg, http, env).view == ViewForm && "Defaults" in Handle(cfg, http, env).state
    ensures Handle(cfg, http, env).state["Defaults"].Defaults?
    ensures KeepsInput(cfg.fields, http, Handle(cfg, http, env).state["Defaults"].values)
  {
    hide Handle, CheckedCode, Admit, PreRendered, DefaultsOf, KeepsInput;
    var session := WorkingSession(cfg, http);
    var state := CheckedCode(cfg, http).state;
    HandledBy(cfg, http, env);
    NoDefaultsYet(cfg, http);
    FormState(cfg, http, env, session, state);
    DefaultsShown(cfg, http, session, state);
    DefaultsKeepInput(cfg.fields, http, Context(http, session));
  }
}
