/** From a request to the stored record: what the gates let through, said without the parts of the handler. */
module Submissions {
  import opened Wrappers
  import opened QueryEncoding
  import opened FormValues
  import opened Session
  import opened Schema
  import opened Web
  import opened Engine
  import opened Gates
  import opened FieldValues

  /** What templates and the form parser see of a request: the posted body as the form, and the code of the session. */
  ghost predicate SeesRequest(cfg: FormConfig, http: Http, ctx: RequestContext) {
    && ctx.headers == http.headers && ctx.query == http.query && ctx.credentials == http.credentials
    && ctx.form == (if http.verb == POST || http.verb == PUT || http.verb == PATCH then http.body else map[])
    && ctx.code == ValueAt(WorkingSession(cfg, http), ACCESS_CODE)
  }

  /** The zone posted as a session entry, unescaped once if it can be, and the local zone if it is not known. */
  ghost predicate InZoneOf(http: Http, lib: Library, loc: Location) {
    var carried := Get(http.PostForm(), PREFIX + TZ);
    var name := if Unescape(carried).Some? then Unescape(carried).value else carried;
    if lib.loadLocation(name).Some? then lib.loadLocation(name) == Some(loc) else loc == Local
  }

  lemma PostedZone(cfg: FormConfig, http: Http)
    ensures ValueAt(WorkingSession(cfg, http) - {FRESH}, TZ) == Get(http.PostForm(), PREFIX + TZ)
  {
    hide SessionOf;
    CheckedSession(cfg, http);
    SessionValue(http.PostForm(), TZ);
  }

  lemma SessionValue(values: Values, k: Bytes)
    ensures ValueAt(SessionOf(values), k) == Get(values, PREFIX + k)
  {
    SessionKey(values, k);
  }

  /** Whatever is stored is the record of the definition and the request, in the zone of the request. */
  lemma StoredIsRecord(cfg: FormConfig, http: Http, env: Environment) returns (ctx: RequestContext, loc: Location)
    requires Handle(cfg, http, env).stored.Some?
    ensures SeesRequest(cfg, http, ctx) && InZoneOf(http, env.lib, loc)
    ensures IsRecordOf(env.lib, cfg.fields, loc, ctx, Handle(cfg, http, env).stored.value)
  {
    hide Handle, ErrorsOf, FieldsOf, IsRecordOf, WorkingSession, Unescape, SessionOf;
    StoredExactlyBehindTheGates(cfg, http, env);
    PostedZone(cfg, http);
    var session := WorkingSession(cfg, http) - {FRESH};
    ctx, loc := Context(http, session), LocationOf(env.lib, session);
    AcceptedRecord(env.lib, cfg.fields, loc, ctx);
  }
}
