/**
 The form handler: one request from the gates to the rendered page, the stored record and
 the notifications. `Handle` says what a request amounts to; `Serve` does it step by step.
 */
module Engine {
  import opened Wrappers
  import opened QueryEncoding
  import opened FormValues
  import opened Session
  import opened Schema
  import opened Web

  const ACCESS_CODE: Bytes := "accessCode"
  const FRESH: Bytes := "fresh"
  const TZ: Bytes := "tz"
  const TRUE: Bytes := "true"

  const OK: nat := 200
  const BAD_REQUEST: nat := 400
  const UNAUTHORIZED: nat := 401
  const FORBIDDEN: nat := 403
  const UNPROCESSABLE: nat := 422

  datatype FormConfig = FormConfig(
    table: Bytes,
    description: Template,
    fields: seq<Field>,
    hasPolicy: bool,
    codes: set<Bytes>,
    destinations: nat,
    xsrf: bool
  ) {
    predicate HasCodeAccess() {
      |codes| > 0
    }
  }

  /** What the storage answers; a refusal may come with a record too. */
  datatype StoreReply = Saved(record: map<Bytes, Value>) | Refused(record: map<Bytes, Value>)

  /** Everything about one request that is decided outside of the handler. */
  datatype Environment = Environment(
    lib: Library,
    policy: bool,
    captchas: seq<bool>,
    reply: StoreReply,
    execution: Execution,
    token: Bytes
  )

  /** Storage and notification dispatchers, seen as logs of the calls made to them. */
  class Backend {
    var stores: seq<(Bytes, map<Bytes, Value>)>
    var dispatched: seq<nat>

    constructor ()
      ensures stores == [] && dispatched == []
    {
      stores, dispatched := [], [];
    }
  }

  // ---------------------------------------------------------------- what a request amounts to

  datatype Effect = Effect(
    view: View,
    status: nat,
    session: Option<SessionMap>,
    messages: seq<FlashMessage>,
    state: State,
    stored: Option<map<Bytes, Value>>,
    notified: bool
  )

  function InitialState(): State {
    map["Form" := FormDefinition]
  }

  /** Policies restrict only identified users. */
  predicate IsAllowed(cfg: FormConfig, http: Http, env: Environment) {
    !cfg.hasPolicy || http.credentials.None? || env.policy
  }

  function Context(http: Http, session: SessionMap): RequestContext {
    RequestContext(http.headers, http.query, http.PostForm(), ValueAt(session, ACCESS_CODE), http.credentials)
  }

  datatype CodeCheck = CodeCheck(valid: bool, session: Option<SessionMap>, state: State)

  /** The code carried by the session wins; only without one is the typed code looked at, and the start is fresh. */
  function CheckedCode(cfg: FormConfig, http: Http): CodeCheck {
    if !cfg.HasCodeAccess() then CodeCheck(true, None, InitialState())
    else if http.verb != POST then CodeCheck(false, None, InitialState())
    else
      var session := SessionOf(http.PostForm());
      var carried := ValueAt(session, ACCESS_CODE);
      var code := if carried == [] then Get(http.PostForm(), ACCESS_CODE) else carried;
      var marked := if carried == [] then session[FRESH := TRUE] else session;
      if code !in cfg.codes then CodeCheck(false, Some(marked), InitialState())
      else CodeCheck(true, Some(marked[ACCESS_CODE := code]), InitialState()["code" := Code(code)])
  }

  /** A posted (or query) value stays as the default of its field; else the default is rendered. */
  function DefaultFor(field: Field, http: Http, ctx: RequestContext): Result<DefaultValue, Bytes> {
    var posted := http.FormValuesOf(field.name);
    if posted != [] then
      if field.multiple && field.options != [] then Success(Chosen(set v | v in posted)) else Success(One(posted[0]))
    else
      var value :- field.default.String(ctx);
      Success(One(value))
  }

  function DefaultsOf(fields: seq<Field>, http: Http, ctx: RequestContext): Result<map<Bytes, DefaultValue>, Bytes> {
    if fields == [] then Success(map[])
    else
      var init :- DefaultsOf(fields[..|fields| - 1], http, ctx);
      var last := fields[|fields| - 1];
      var value :- DefaultFor(last, http, ctx);
      Success(init[last.name := value])
  }

  datatype Prepared = Prepared(state: State, failure: Option<Bytes>)

  function PreRendered(cfg: FormConfig, http: Http, session: SessionMap, state: State): Prepared {
    var ctx := Context(http, session);
    var description := cfg.description.String(ctx);
    if description.Failure? then Prepared(state, Some(description.error))
    else
      var described := state["Description" := Description(description.value)];
      var defaults := DefaultsOf(cfg.fields, http, ctx);
      if defaults.Failure? then Prepared(described, Some(defaults.error))
      else Prepared(described["Defaults" := Defaults(defaults.value)], None)
  }

  function Flashed(errors: seq<FieldError>): seq<FlashMessage> {
    seq(|errors|, i requires 0 <= i < |errors| => FlashMessage(errors[i].name, Invalid(errors[i].error)))
  }

  function LocationOf(lib: Library, session: SessionMap): Location {
    lib.loadLocation(DecodeOnce(ValueAt(session, TZ))).GetOr(Local)
  }

  /** Below here a result page follows, whatever the storage answers. */
  function Replied(env: Environment, session: SessionMap, messages: seq<FlashMessage>,
                   state: State, values: map<Bytes, Value>): Effect {
    var marked := session[FRESH := TRUE];
    match env.reply
    case Refused(record) =>
      Effect(ViewFail, INTERNAL_ERROR, Some(marked), messages + [FlashMessage([], StoreFailed)],
              state["Result" := Web.Result(record, true)], Some(values), false)
    case Saved(record) =>
      Effect(ViewSuccess, OK, Some(marked), messages,
              state["Result" := Web.Result(record, false)], Some(values), true)
  }

  function Submit(cfg: FormConfig, http: Http, env: Environment, session: SessionMap,
                  messages: seq<FlashMessage>, state: State): Effect {
    var loc := LocationOf(env.lib, session);
    var ctx := Context(http, session);
    var errors := ErrorsOf(env.lib, cfg.fields, loc, ctx);
    if errors != [] then Effect(ViewForm, UNPROCESSABLE, Some(session), messages + Flashed(errors), state, None, false)
    else Replied(env, session, messages, state, FieldsOf(env.lib, cfg.fields, loc, ctx))
  }

  /** Captchas are asked on POST only. */
  function Challenge(cfg: FormConfig, http: Http, env: Environment, session: SessionMap,
                     messages: seq<FlashMessage>, state: State): Effect {
    if http.verb == POST && exists i :: 0 <= i < |env.captchas| && !env.captchas[i] then
      Effect(ViewForm, BAD_REQUEST, Some(session), messages + [FlashMessage([], InvalidCaptcha)], state, None, false)
    else
      Submit(cfg, http, env, session, messages, state)
  }

  function PrepareMessages(failure: Option<Bytes>): seq<FlashMessage> {
    if failure.Some? then [FlashMessage([], DefaultsFailed(failure.value))] else []
  }

  function Admit(cfg: FormConfig, http: Http, env: Environment, session: SessionMap, state: State): Effect {
    var prepared := PreRendered(cfg, http, session, state);
    var messages := PrepareMessages(prepared.failure);
    if ValueAt(session, FRESH) == TRUE || http.verb == GET then
      Effect(ViewForm, OK, Some(session - {FRESH}), messages, prepared.state, None, false)
    else
      Challenge(cfg, http, env, session - {FRESH}, messages, prepared.state)
  }

  function Handle(cfg: FormConfig, http: Http, env: Environment): Effect {
    if cfg.xsrf && !http.XsrfVerified() then
      Effect(ViewForbidden, FORBIDDEN, None, [FlashMessage([], XsrfFailed)], InitialState(), None, false)
    else if !IsAllowed(cfg, http, env) then
      Effect(ViewForbidden, FORBIDDEN, None, [], InitialState(), None, false)
    else if cfg.HasCodeAccess() && http.verb != POST then
      Effect(ViewCode, UNAUTHORIZED, None, [], InitialState(), None, false)
    else
      var check := CheckedCode(cfg, http);
      if !check.valid then
        Effect(ViewCode, UNAUTHORIZED, check.session, [FlashMessage([], InvalidCode)], check.state, None, false)
      else
        Admit(cfg, http, env, check.session.GetOr(SessionOf(http.PostForm())), check.state)
  }

  // ---------------------------------------------------------------- step by step

  method NewRequestContext(r: Request) returns (ctx: RequestContext)
    modifies r`session
    ensures ctx == Context(r.http, old(r.Parsed()))
    ensures r.session == Some(old(r.Parsed()))
  {
    var session := r.Session();
    ctx := RequestContext(r.http.headers, r.http.query,
                          r.http.PostForm(), ValueAt(session, ACCESS_CODE), r.http.credentials);
  }

  method ValidateCode(cfg: FormConfig, r: Request) returns (valid: bool)
    requires r.session == None && r.state == InitialState()
    modifies r`session, r`state
    ensures CheckedCode(cfg, r.http) == CodeCheck(valid, r.session, r.state)
  {
    if !cfg.HasCodeAccess() {
      return true;
    }
    if r.http.verb != POST {
      return false;
    }
    var session := r.Session();
    var code := ValueAt(session, ACCESS_CODE);
    if code == [] {
      code := Get(r.http.PostForm(), ACCESS_CODE);
      r.Push(FRESH, TRUE);
    }
    if code !in cfg.codes {
      return false;
    }
    r.Push(ACCESS_CODE, code);
    r.Set("code", Code(code));
    return true;
  }

  method PreRender(cfg: FormConfig, r: Request) returns (failure: Option<Bytes>)
    modifies r`session, r`state
    ensures r.session == Some(old(r.Parsed()))
    ensures PreRendered(cfg, r.http, old(r.Parsed()), old(r.state)) == Prepared(r.state, failure)
  {
    hide Context;
    var ctx := NewRequestContext(r);
    var description := cfg.description.String(ctx);
    if description.Failure? {
      return Some(description.error);
    }
    r.Set("Description", Description(description.value));

    var defaults: map<Bytes, DefaultValue> := map[];
    for i := 0 to |cfg.fields|
      invariant DefaultsOf(cfg.fields[..i], r.http, ctx) == Success(defaults)
    {
      assert cfg.fields[..i + 1][..i] == cfg.fields[..i];
      var field := cfg.fields[i];
      var posted := r.http.FormValuesOf(field.name);
      if |posted| > 0 {
        if field.multiple && |field.options| > 0 {
          defaults := defaults[field.name := Chosen(set v | v in posted)];
        } else {
          defaults := defaults[field.name := One(posted[0])];
        }
      } else {
        var value := field.default.String(ctx);
        if value.Failure? {
          DefaultsFailureStays(cfg.fields, i + 1, r.http, ctx);
          return Some(value.error);
        }
        defaults := defaults[field.name := One(value.value)];
      }
    }
    assert cfg.fields[..|cfg.fields|] == cfg.fields;
    r.Set("Defaults", Defaults(defaults));
    return None;
  }

  lemma {:induction false} DefaultsFailureStays(fields: seq<Field>, i: nat, http: Http, ctx: RequestContext)
    requires i <= |fields| && DefaultsOf(fields[..i], http, ctx).Failure?
    ensures DefaultsOf(fields, http, ctx) == DefaultsOf(fields[..i], http, ctx)
  {
    if i == |fields| {
      assert fields[..i] == fields;
    } else {
      assert fields[..|fields| - 1][..i] == fields[..i];
      DefaultsFailureStays(fields[..|fields| - 1], i, http, ctx);
    }
  }

  function Everyone(n: nat): seq<nat> {
    seq(n, i => i)
  }

  lemma {:induction false} EveryoneOnce(n: nat, d: nat)
    ensures multiset(Everyone(n))[d] == if d < n then 1 else 0
  {
    if n > 0 {
      EveryoneOnce(n - 1, d);
      assert Everyone(n) == Everyone(n - 1) + [n - 1];
    }
  }

  /** The dispatches run in parallel, so in any order; each destination gets one. */
  method SendNotifications(cfg: FormConfig, backend: Backend)
    modifies backend`dispatched
    ensures multiset(backend.dispatched) == multiset(old(backend.dispatched)) + multiset(Everyone(cfg.destinations))
  {
    var pending := Everyone(cfg.destinations);
    while pending != []
      invariant multiset(backend.dispatched) + multiset(pending)
             == multiset(old(backend.dispatched)) + multiset(Everyone(cfg.destinations))
      decreases |pending|
    {
      var i :| 0 <= i < |pending|;
      assert pending == pending[..i] + [pending[i]] + pending[i + 1..];
      backend.dispatched := backend.dispatched + [pending[i]];
      pending := pending[..i] + pending[i + 1..];
    }
  }

  /** The effects of a request: exactly one response, the stored record, the dispatches. */
  twostate predicate Served(cfg: FormConfig, env: Environment, o: Effect, r: Request, backend: Backend)
    reads r, backend
  {
    && r.session == o.session && r.messages == o.messages && r.state == o.state
    && Answers(old(r.written), r.written, o.status, o.view, cfg.HasCodeAccess(), o.session, env.token, env.execution)
    && r.setCookie == (
          if SetsCookie(o.view, cfg.HasCodeAccess(), env.execution) then Some(env.token) else old(r.setCookie))
    && backend.stores
       == (if o.stored.Some? then old(backend.stores) + [(cfg.table, o.stored.value)] else old(backend.stores))
    && multiset(backend.dispatched)
       == multiset(old(backend.dispatched)) + (if o.notified then multiset(Everyone(cfg.destinations)) else multiset{})
  }

  method ParseSubmission(cfg: FormConfig, env: Environment, r: Request)
    returns (values: map<Bytes, Value>, errors: seq<FieldError>)
    requires r.session.Some?
    modifies r`session, r`messages
    ensures r.session == old(r.session)
    ensures values ==
              FieldsOf(env.lib, cfg.fields, LocationOf(env.lib, r.session.value), Context(r.http, r.session.value))
    ensures errors ==
              ErrorsOf(env.lib, cfg.fields, LocationOf(env.lib, r.session.value), Context(r.http, r.session.value))
    ensures r.messages == old(r.messages) + Flashed(errors)
  {
    var session := r.Session();
    var tz := ValueAt(session, TZ);
    var unescaped := Unescape(tz);
    if unescaped.Some? {
      tz := unescaped.value;
    }
    var location := Local;
    var loaded := env.lib.loadLocation(tz);
    if loaded.Some? {
      location := loaded.value;
    }

    var ctx := NewRequestContext(r);
    values, errors := ParseForm(env.lib, cfg.fields, location, ctx);
    for i := 0 to |errors|
      invariant r.messages == old(r.messages) + Flashed(errors)[..i]
      modifies r`messages
    {
      r.Flash(errors[i].name, Invalid(errors[i].error));
    }
    assert Flashed(errors)[..|errors|] == Flashed(errors);
  }

  method StoreAndReply(cfg: FormConfig, env: Environment, r: Request, backend: Backend, values: map<Bytes, Value>)
    requires r.session.Some? && r.xsrf == []
    modifies r, backend
    ensures Served(cfg, env, Replied(env, old(r.session.value), old(r.messages), old(r.state), values), r, backend)
  {
    r.Push(FRESH, TRUE);
    backend.stores := backend.stores + [(cfg.table, values)];
    match env.reply {
      case Refused(record) =>
        r.Flash([], StoreFailed);
        r.Set("Result", Web.Result(record, true));
        r.Render(INTERNAL_ERROR, ViewFail, cfg.HasCodeAccess(), env.token, env.execution);
      case Saved(record) =>
        r.Set("Result", Web.Result(record, false));
        r.Render(OK, ViewSuccess, cfg.HasCodeAccess(), env.token, env.execution);
        SendNotifications(cfg, backend);
    }
  }

  method SubmitForm(cfg: FormConfig, env: Environment, r: Request, backend: Backend)
    requires r.session.Some? && r.xsrf == []
    modifies r, backend
    ensures Served(cfg, env, Submit(cfg, r.http, env, old(r.session.value), old(r.messages), old(r.state)), r, backend)
  {
    var values, errors := ParseSubmission(cfg, env, r);
    if |errors| > 0 {
      r.Render(UNPROCESSABLE, ViewForm, cfg.HasCodeAccess(), env.token, env.execution);
      return;
    }
    assert r.messages == old(r.messages);
    StoreAndReply(cfg, env, r, backend, values);
  }

  method Serve(cfg: FormConfig, env: Environment, r: Request, backend: Backend)
    requires r.session == None && r.xsrf == [] && r.messages == [] && r.state == InitialState()
    requires r.captchas == env.captchas
    modifies r, backend
    ensures Served(cfg, env, Handle(cfg, r.http, env), r, backend)
  {
    if cfg.xsrf {
      var verified := r.VerifyXSRF();
      if !verified {
        r.Flash([], XsrfFailed);
        r.Render(FORBIDDEN, ViewForbidden, cfg.HasCodeAccess(), env.token, env.execution);
        return;
      }
    }

    if !IsAllowed(cfg, r.http, env) {
      r.Render(FORBIDDEN, ViewForbidden, cfg.HasCodeAccess(), env.token, env.execution);
      return;
    }

    if cfg.HasCodeAccess() && r.http.verb != POST {
      r.Render(UNAUTHORIZED, ViewCode, cfg.HasCodeAccess(), env.token, env.execution);
      return;
    }

    var valid := ValidateCode(cfg, r);
    if !valid {
      r.Flash([], InvalidCode);
      r.Render(UNAUTHORIZED, ViewCode, cfg.HasCodeAccess(), env.token, env.execution);
      return;
    }

    Proceed(cfg, env, r, backend);
  }

  /** Defaults first, which parses the session, and only then the raw pop of the start marker. */
  method Start(cfg: FormConfig, r: Request) returns (start: Bytes)
    requires r.messages == []
    modifies r`session, r`messages, r`state
    ensures start == ValueAt(old(r.Parsed()), FRESH)
    ensures r.session == Some(old(r.Parsed()) - {FRESH})
    ensures r.state == PreRendered(cfg, r.http, old(r.Parsed()), old(r.state)).state
    ensures r.messages == PrepareMessages(PreRendered(cfg, r.http, old(r.Parsed()), old(r.state)).failure)
  {
    var failure := PreRender(cfg, r);
    if failure.Some? {
      r.Flash([], DefaultsFailed(failure.value));
    }
    start := r.Pop(FRESH);
  }

  /** The handler behind the gates. */
  method Proceed(cfg: FormConfig, env: Environment, r: Request, backend: Backend)
    requires r.xsrf == [] && r.messages == [] && r.captchas == env.captchas
    modifies r, backend
    ensures Served(cfg, env, Admit(cfg, r.http, env, old(r.Parsed()), old(r.state)), r, backend)
  {
    var start := Start(cfg, r);
    if start == TRUE || r.http.verb == GET {
      r.Render(OK, ViewForm, cfg.HasCodeAccess(), env.token, env.execution);
      return;
    }
    VerifyAndSubmit(cfg, env, r, backend);
  }

  method VerifyAndSubmit(cfg: FormConfig, env: Environment, r: Request, backend: Backend)
    requires r.session.Some? && r.xsrf == [] && r.captchas == env.captchas
    modifies r, backend
    ensures Served(cfg, env,
              Challenge(cfg, r.http, env, old(r.session.value), old(r.messages), old(r.state)), r, backend)
  {
    var human := r.VerifyCaptcha();
    if !human {
      r.Flash([], InvalidCaptcha);
      r.Render(BAD_REQUEST, ViewForm, cfg.HasCodeAccess(), env.token, env.execution);
      return;
    }

    SubmitForm(cfg, env, r, backend);
  }

  /** The handler that is installed for a form: one fresh request object per request. */
  method HandleRequest(cfg: FormConfig, env: Environment, http: Http, backend: Backend) returns (r: Request)
    modifies backend
    ensures fresh(r) && r.http == http
    ensures var o := Handle(cfg, http, env);
      && |r.written| == 1
      && r.written[0].status == (if env.execution == Completes then o.status else INTERNAL_ERROR)
      && Renders(o.view, cfg.HasCodeAccess(), o.session, env.token, env.execution, r.written[0].page)
      && r.setCookie == (if SetsCookie(o.view, cfg.HasCodeAccess(), env.execution) then Some(env.token) else None)
      && backend.stores
         == (if o.stored.Some? then old(backend.stores) + [(cfg.table, o.stored.value)] else old(backend.stores))
      && multiset(backend.dispatched)
         == multiset(old(backend.dispatched)) +
              (if o.notified then multiset(Everyone(cfg.destinations)) else multiset{})
  {
    r := new Request(http, env.captchas);
    r.Set("Form", FormDefinition);
    label ready:
    Serve(cfg, env, r, backend);
    assert Served@ready(cfg, env, Handle(cfg, http, env), r, backend);
  }
}
