/** The time zone along the pages of a run. */
module Zones {
  import opened Wrappers
  import opened QueryEncoding
  import opened FormValues
  import opened Session
  import opened Web
  import opened Engine
  import opened Gates
  import opened Protocol
  import opened Schema
  import opened SchemaTheorems
  import opened FieldValues
  import opened Submissions

  /** The zone name that the handler decodes from a request. */
  function DecodedZone(cfg: FormConfig, http: Http): Bytes {
    DecodeOnce(ValueAt(WorkingSession(cfg, http) - {FRESH}, TZ))
  }

  /** A browser that, from a form page without a zone on, posts each page it is given. */
  ghost predicate Turns(cfg: FormConfig, bs: seq<Browser>, acts: seq<Action>) {
    && |bs| == |acts| + 1
    && PREFIX + TZ !in EditableNames(cfg.fields)
    && (forall i | 0 <= i < |acts| ::
          && Step(cfg, bs[i], acts[i], bs[i + 1])
          && acts[i].Post? && acts[i].page == |bs[i].pages| - 1)
    && (|acts| > 0 ==>
          var first := Posted(bs[0], acts[0]);
          first.Page? && first.view == ViewForm && CarriesToken(first, bs[0].tokens) && Carried(first, TZ) == None)
  }

  lemma RenderedCarries(cfg: FormConfig, b: Browser, act: Action, next: Browser)
    requires Step(cfg, b, act, next) && act.Post? && CarriesToken(Posted(b, act), b.tokens)
    requires Postable(cfg, next.pages[|b.pages|])
    requires TZ in SessionOf(RequestOf(b, act).PostForm())
    ensures CarriesToken(next.pages[|b.pages|], next.tokens)
    ensures Carried(next.pages[|b.pages|], TZ) == Some(Escape(SessionOf(RequestOf(b, act).PostForm())[TZ]))
  {
    hide Handle, CarriesToken, Token, Carried, Possible, PageFits;
    var http := RequestOf(b, act);
    var page := next.pages[|b.pages|];
    PageOfToken(page, act.env.token, next.tokens);
    PageSessions(cfg, http, act.env);
    HandledOnPost(cfg, http, act.env);
    OtherEntriesPass(cfg, http, act.env, TZ);
    CarriedEntry(page, EffectOf(cfg, b, act).session.value, TZ);
  }

  lemma HandledOnPost(cfg: FormConfig, http: Http, env: Environment)
    requires http.verb == POST && HasPostForm(Handle(cfg, http, env).view, cfg.HasCodeAccess())
    ensures Handle(cfg, http, env).session.Some?
  {
    HandledBy(cfg, http, env);
    if CheckedCode(cfg, http).valid {
      AdmittedSession(cfg, http, env, WorkingSession(cfg, http), CheckedCode(cfg, http).state);
    }
  }

  /** The form page without a zone posts the one that its script filled in. */
  lemma FirstZone(cfg: FormConfig, b: Browser, act: Action)
    requires Possible(cfg, b, act) && act.Post? && CarriesToken(Posted(b, act), b.tokens)
    requires Posted(b, act).view == ViewForm && Carried(Posted(b, act), TZ) == None
    requires PREFIX + TZ !in EditableNames(cfg.fields)
    ensures var posted := SessionOf(RequestOf(b, act).PostForm()); TZ in posted && posted[TZ] == act.entry.zone
  {
    hide Handle, CarriesToken, Carried;
    var entry := act.entry;
    LookupNone(entry.inputs + entry.captcha, PREFIX + TZ);
    assert PREFIX <= PREFIX + TZ;
    LookupInConcat(entry.inputs + entry.captcha, [(PREFIX + TZ, entry.zone)], PREFIX + TZ);
    PostedEntry(cfg, b, act, TZ);
  }

  lemma NextZone(cfg: FormConfig, b: Browser, act: Action, k: Bytes)
    requires Possible(cfg, b, act) && act.Post? && CarriesToken(Posted(b, act), b.tokens)
    requires Carried(Posted(b, act), k).Some?
    ensures var posted := SessionOf(RequestOf(b, act).PostForm());
      k in posted && posted[k] == Carried(Posted(b, act), k).value
  {
    PostedEntry(cfg, b, act, k);
  }

  lemma TurnSteps(cfg: FormConfig, bs: seq<Browser>, acts: seq<Action>, i: nat)
    requires Turns(cfg, bs, acts) && i < |acts|
    ensures Step(cfg, bs[i], acts[i], bs[i + 1]) && acts[i].Post? && Possible(cfg, bs[i], acts[i])
    ensures |bs[i + 1].pages| == |bs[i].pages| + 1
    ensures Posted(bs[i], acts[i]) == bs[i].pages[|bs[i].pages| - 1] && Postable(cfg, Posted(bs[i], acts[i]))
  {
    hide Handle;
  }

  /** After `i` turns the session of the request holds the zone escaped `i` times. */
  lemma {:induction false} ZoneAfterTurns(cfg: FormConfig, bs: seq<Browser>, acts: seq<Action>, i: nat)
    requires Turns(cfg, bs, acts) && i < |acts|
    ensures CarriesToken(Posted(bs[i], acts[i]), bs[i].tokens)
    ensures var posted := SessionOf(RequestOf(bs[i], acts[i]).PostForm());
      TZ in posted && posted[TZ] == EscapeTimes(i, acts[0].entry.zone)
  {
    hide Step, CarriesToken, Carried, Possible, Postable, RequestOf, SessionOf;
    TurnSteps(cfg, bs, acts, i);
    if i == 0 {
      FirstZone(cfg, bs[0], acts[0]);
    } else {
      TurnSteps(cfg, bs, acts, i - 1);
      ZoneAfterTurns(cfg, bs, acts, i - 1);
      RenderedCarries(cfg, bs[i - 1], acts[i - 1], bs[i]);
      EscapeTimesOuter(i - 1, acts[0].entry.zone);
      NextZone(cfg, bs[i], acts[i], TZ);
    }
  }

  /**
   The zone that the handler uses along such a run. It is right on the first post unless the
   name looks escaped, right on the second whatever the name, and right on every later one
   exactly when the name is made of unreserved characters.
   */
  lemma ZoneAcrossTurns(cfg: FormConfig, bs: seq<Browser>, acts: seq<Action>, i: nat)
    requires Turns(cfg, bs, acts) && i < |acts|
    ensures var zone := acts[0].entry.zone;
      var used := DecodedZone(cfg, RequestOf(bs[i], acts[i]));
      && (i > 0 ==> used == EscapeTimes(i - 1, zone))
      && (used == zone <==> if i == 0 then DecodesToItself(zone) else i == 1 || AllUnreserved(zone))
  {
    hide CheckedCode, Step, DecodeOnce, EscapeTimes, SessionOf, CarriesToken, Posted, DecodesToItself;
    var zone := acts[0].entry.zone;
    ZoneAfterTurns(cfg, bs, acts, i);
    ZoneOfSession(cfg, RequestOf(bs[i], acts[i]));
    if i > 0 {
      DecodeAfterTurns(i, zone);
    }
    DecodeSurvives(i, zone);
  }

  lemma ZoneOfSession(cfg: FormConfig, http: Http)
    ensures ValueAt(WorkingSession(cfg, http) - {FRESH}, TZ) == ValueAt(SessionOf(http.PostForm()), TZ)
  {
    CheckedSession(cfg, http);
  }

  /** The name of the zone that is looked up on post `i` of such a run. */
  function NameOnTurn(zone: Bytes, i: nat): Bytes {
    if i == 0 then DecodeOnce(zone) else EscapeTimes(i - 1, zone)
  }

  ghost predicate IsZone(lib: Library, name: Bytes, loc: Location) {
    match lib.loadLocation(name)
    case Some(l) => loc == l
    case None => loc == Local
  }

  /** What post `i` of such a run stores is the record of definition and request, read in the zone of that name. */
  lemma RecordInZone(cfg: FormConfig, bs: seq<Browser>, acts: seq<Action>, i: nat)
    returns (ctx: RequestContext, loc: Location)
    requires Turns(cfg, bs, acts) && i < |acts| && Stores(cfg, bs[i], acts[i])
    ensures SeesRequest(cfg, RequestOf(bs[i], acts[i]), ctx)
    ensures IsZone(acts[i].env.lib, NameOnTurn(acts[0].entry.zone, i), loc)
    ensures IsRecordOf(acts[i].env.lib, cfg.fields, loc, ctx, EffectOf(cfg, bs[i], acts[i]).stored.value)
  {
    hide Handle, Step, CarriesToken, IsRecordOf, SeesRequest, SessionOf, Posted, CheckedCode, Escape, Unescape;
    ZoneAfterTurns(cfg, bs, acts, i);
    SessionValue(RequestOf(bs[i], acts[i]).PostForm(), TZ);
    if i > 0 {
      DecodeAfterTurns(i, acts[0].entry.zone);
    }
    ctx, loc := StoredIsRecord(cfg, RequestOf(bs[i], acts[i]), acts[i].env);
  }

  /** So the date-time of a field with a name of its own is the first text that is not blank, read in that zone. */
  lemma InstantInZone(cfg: FormConfig, bs: seq<Browser>, acts: seq<Action>, i: nat, f: nat)
    returns (ctx: RequestContext, loc: Location, raw: seq<Bytes>, j: nat)
    requires Turns(cfg, bs, acts) && i < |acts| && Stores(cfg, bs[i], acts[i]) && f < |cfg.fields|
    requires cfg.fields[f].typ.TDateTime? && !cfg.fields[f].multiple
    requires forall k | 0 <= k < |cfg.fields| && k != f :: cfg.fields[k].name != cfg.fields[f].name
    requires cfg.fields[f].name in EffectOf(cfg, bs[i], acts[i]).stored.value
    ensures SeesRequest(cfg, RequestOf(bs[i], acts[i]), ctx)
    ensures IsZone(acts[i].env.lib, NameOnTurn(acts[0].entry.zone, i), loc)
    ensures RawTexts(cfg.fields[f], ctx, raw) && FirstNonBlank(raw, j)
    ensures var value := EffectOf(cfg, bs[i], acts[i]).stored.value[cfg.fields[f].name];
      value.TimeValue? && acts[i].env.lib.parseDateTime(TrimSpace(raw[j]), loc) == Success(value.instant)
  {
    hide Step, Handle, IsZone, NameOnTurn, SeesRequest, IsRecordOf, RawTexts, TrimSpace, CarriesToken;
    ctx, loc := RecordInZone(cfg, bs, acts, i);
    raw, j := SingleValue(acts[i].env.lib, cfg.fields, loc, ctx, EffectOf(cfg, bs[i], acts[i]).stored.value, f);
  }

  const TOKYO: Bytes := "Asia/Tokyo"
  const WEST: Bytes := "Etc/GMT+5"

  /** Two ordinary zone names that the handler gets wrong: on the third post, and on the first. */
  lemma ZonesGoWrong()
    ensures forall k: nat | k >= 2 :: DecodeOnce(EscapeTimes(k, TOKYO)) != TOKYO
    ensures DecodeOnce(WEST) != WEST
  {
    assert !Unreserved(TOKYO[4]);
    forall k: nat | k >= 2 ensures DecodeOnce(EscapeTimes(k, TOKYO)) != TOKYO {
      DecodeSurvives(k, TOKYO);
    }
    assert WEST[7] == '+';
    PlusUnescapes(WEST);
    DecodeSurvives(0, WEST);
  }

  /** Without a `%` there is nothing that could fail to unescape. */
  lemma {:induction false} PlusUnescapes(s: Bytes)
    requires '%' !in s
    ensures Unescape(s).Some?
  {
    if s != [] {
      PlusUnescapes(s[1..]);
    }
  }
}
