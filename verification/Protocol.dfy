/**
 Whole runs of a browser against the form handler. The server keeps nothing between two
 requests: all that connects them is the pages a browser holds and its cookie. The browser
 may post any page it ever got, in any order and any number of times.
 */
module Protocol {
  import opened Wrappers
  import opened QueryEncoding
  import opened FormValues
  import opened Html
  import opened Session
  import opened Schema
  import opened Web
  import opened Engine
  import opened Gates

  datatype Browser = Browser(pages: seq<Page>, cookie: Option<Bytes>, tokens: set<Bytes>)

  /**
   What the user types into a page: the code of the code page, the inputs of the form page,
   and the zone that the script of the form page fills in.
   */
  datatype Entry = Entry(typed: Bytes, inputs: Pairs, captcha: Pairs, zone: Bytes)

  datatype Sender = Sender(query: Values, headers: Values, credentials: Option<Credentials>)

  datatype Action =
    | Visit(sender: Sender, env: Environment)
    | Post(page: nat, entry: Entry, sender: Sender, env: Environment)

  /** The names of the inputs that the form page lets the user change. */
  function EditableNames(fields: seq<Field>): set<Bytes> {
    set i | 0 <= i < |fields| && !fields[i].hidden && !fields[i].disabled :: fields[i].name
  }

  /** The inputs behind the hidden ones; the form page ends with the time zone. */
  function VisibleInputs(view: View, entry: Entry): Pairs {
    match view
    case ViewCode => [(ACCESS_CODE, entry.typed)] + entry.captcha
    case ViewForm => entry.inputs + entry.captcha + [(PREFIX + TZ, entry.zone)]
    case _ => []
  }

  function Body(page: Page, entry: Entry): Pairs {
    if page.Blank? then []
    else ReadInputs(page.xsrfInput) + ReadInputs(page.sessionInputs) + VisibleInputs(page.view, entry)
  }

  /** The page that an action posts. */
  function Posted(b: Browser, act: Action): Page {
    if act.Post? && act.page < |b.pages| then b.pages[act.page] else Blank
  }

  predicate Postable(cfg: FormConfig, page: Page) {
    page.Page? && HasPostForm(page.view, cfg.HasCodeAccess())
  }

  predicate EntryFits(cfg: FormConfig, entry: Entry) {
    && (forall i | 0 <= i < |entry.inputs| :: entry.inputs[i].0 in EditableNames(cfg.fields))
    && (forall i | 0 <= i < |entry.captcha| :: !(PREFIX <= entry.captcha[i].0))
  }

  predicate Possible(cfg: FormConfig, b: Browser, act: Action) {
    act.Post? ==> act.page < |b.pages| && Postable(cfg, Posted(b, act)) && EntryFits(cfg, act.entry)
  }

  function RequestOf(b: Browser, act: Action): Http {
    match act
    case Visit(sender, _) => Http(GET, map[], sender.query, sender.headers, b.cookie, sender.credentials)
    case Post(_, entry, sender, _) =>
      Http(POST, Group(Body(Posted(b, act), entry)), sender.query, sender.headers, b.cookie, sender.credentials)
  }

  function EffectOf(cfg: FormConfig, b: Browser, act: Action): Effect {
    Handle(cfg, RequestOf(b, act), act.env)
  }

  /** Tokens are drawn at random: never empty, hexadecimal, and never one that was drawn before. */
  predicate FreshToken(b: Browser, token: Bytes) {
    token != [] && AllUnreserved(token) && token !in b.tokens
  }

  ghost predicate Step(cfg: FormConfig, b: Browser, act: Action, next: Browser) {
    && Possible(cfg, b, act)
    && FreshToken(b, act.env.token)
    && var o := EffectOf(cfg, b, act);
       var code := cfg.HasCodeAccess();
       && |next.pages| == |b.pages| + 1 && next.pages[..|b.pages|] == b.pages
       && Renders(o.view, code, o.session, act.env.token, act.env.execution, next.pages[|b.pages|])
       && next.cookie == (if SetsCookie(o.view, code, act.env.execution) then Some(act.env.token) else b.cookie)
       && next.tokens == b.tokens + {act.env.token}
  }

  /** The handler is never stuck: every possible action is answered, whatever the environment does. */
  lemma StepExists(cfg: FormConfig, b: Browser, act: Action) returns (next: Browser)
    requires Possible(cfg, b, act) && FreshToken(b, act.env.token)
    ensures Step(cfg, b, act, next)
  {
    hide Handle;
    var o := EffectOf(cfg, b, act);
    var code := cfg.HasCodeAccess();
    var html := EmbeddingExists(SessionOrEmpty(o.session));
    var page :=
      if act.env.execution != Completes then Blank
      else if !HasPostForm(o.view, code) then Page(o.view, [], [])
      else Page(o.view, HiddenInput(FORM_XSRF, act.env.token), html);
    next := Browser(
      b.pages + [page],
      if SetsCookie(o.view, code, act.env.execution) then Some(act.env.token) else b.cookie,
      b.tokens + {act.env.token}
    );
    assert next.pages[|b.pages|] == page;
  }

  ghost predicate Start(b: Browser) {
    b.pages == [] && (b.cookie.Some? ==> b.cookie.value in b.tokens)
  }

  /** A run: the browser before each action and after the last one. */
  ghost predicate Run(cfg: FormConfig, bs: seq<Browser>, acts: seq<Action>) {
    && |bs| == |acts| + 1
    && Start(bs[0])
    && forall i | 0 <= i < |acts| :: Step(cfg, bs[i], acts[i], bs[i + 1])
  }

  predicate Stores(cfg: FormConfig, b: Browser, act: Action) {
    EffectOf(cfg, b, act).stored.Some?
  }

  /** The answer to the action replaces the token in the cookie. */
  predicate DrawsToken(cfg: FormConfig, b: Browser, act: Action) {
    SetsCookie(EffectOf(cfg, b, act).view, cfg.HasCodeAccess(), act.env.execution)
  }

  // ---------------------------------------------------------------- what a page carries

  /** What a page will post under the name of a session entry. */
  function Carried(page: Page, k: Bytes): Option<Bytes> {
    if page.Blank? then None else Lookup(ReadInputs(page.sessionInputs), PREFIX + k)
  }

  function Token(page: Page): Option<Bytes> {
    if page.Blank? then None else Lookup(ReadInputs(page.xsrfInput), FORM_XSRF)
  }

  lemma CarriedEntry(page: Page, m: SessionMap, k: Bytes)
    requires page.Page? && Embeds(page.sessionInputs, m) && AllUnreserved(k)
    ensures Carried(page, k) == if k in m then Some(Escape(m[k])) else None
  {
    EmbeddedLookup(page.sessionInputs, m, k);
    EscapeFixedPoint(k);
    TurnedAt(m, k);
  }

  lemma TokenInput(token: Bytes)
    requires AllUnreserved(token)
    ensures ReadInputs(HiddenInput(FORM_XSRF, token)) == [(FORM_XSRF, token)]
  {
    var pairs := [(FORM_XSRF, token)];
    assert pairs[..0] == [];
    assert HiddenInputs(pairs) == HiddenInput(FORM_XSRF, token);
    ReadInputsOfInputs(pairs);
  }

  /** The page posts exactly one token, first, and it is one that was drawn. */
  ghost predicate CarriesToken(page: Page, tokens: set<Bytes>) {
    && page.Page? && Token(page).Some? && Token(page).value in tokens
    && ReadInputs(page.xsrfInput) == [(FORM_XSRF, Token(page).value)]
  }

  /** The invariant of every page: where it carries a code, and whether it marks a fresh start. */
  ghost predicate PageFits(cfg: FormConfig, page: Page, tokens: set<Bytes>) {
    page.Page? && HasPostForm(page.view, cfg.HasCodeAccess()) ==>
      && CarriesToken(page, tokens) && OnlyEntries(page.sessionInputs)
      && match page.view
         case ViewCode => cfg.HasCodeAccess() && Carried(page, ACCESS_CODE) == None
         case ViewForm =>
           && Carried(page, FRESH) == None
           && (cfg.HasCodeAccess() ==>
                 Carried(page, ACCESS_CODE).Some? && Carried(page, ACCESS_CODE).value in cfg.codes)
         case _ =>
           && Carried(page, FRESH) == Some(TRUE)
           && (cfg.HasCodeAccess() ==>
                 Carried(page, ACCESS_CODE).Some? && Carried(page, ACCESS_CODE).value in cfg.codes)
  }

  ghost predicate Inv(cfg: FormConfig, b: Browser) {
    && (forall i | 0 <= i < |b.pages| :: PageFits(cfg, b.pages[i], b.tokens))
    && (b.cookie.Some? ==> b.cookie.value in b.tokens)
  }

  /** What a posted page puts into the session of its request, entry by entry. */
  lemma PostedEntry(cfg: FormConfig, b: Browser, act: Action, k: Bytes)
    requires Possible(cfg, b, act) && act.Post? && CarriesToken(Posted(b, act), b.tokens)
    ensures var page := Posted(b, act);
      var posted := SessionOf(RequestOf(b, act).PostForm());
      var visible := Lookup(VisibleInputs(page.view, act.entry), PREFIX + k);
      && (k in posted <==> Carried(page, k).Some? || visible.Some?)
      && (k in posted ==> posted[k] == if Carried(page, k).Some? then Carried(page, k).value else visible.value)
  {
    var page := Posted(b, act);
    var xsrf, session, visible
      := ReadInputs(page.xsrfInput), ReadInputs(page.sessionInputs), VisibleInputs(page.view, act.entry);
    assert (PREFIX + k)[1] == '_' && FORM_XSRF[1] == 'x';
    LookupInConcat(xsrf, session, PREFIX + k);
    LookupInConcat(xsrf + session, visible, PREFIX + k);
    SessionOfPairs(Body(page, act.entry), k);
  }

  /** Nothing behind the hidden inputs of a code page or a result page is a session entry. */
  lemma NoVisibleEntry(cfg: FormConfig, view: View, entry: Entry, k: Bytes)
    requires EntryFits(cfg, entry) && view != ViewForm
    ensures Lookup(VisibleInputs(view, entry), PREFIX + k) == None
  {
    LookupNone(VisibleInputs(view, entry), PREFIX + k);
    assert ACCESS_CODE[0] == 'a' && (PREFIX + k)[0] == '_';
    assert PREFIX <= PREFIX + k;
  }

  /** Codes that a form can be used with: the next lemmas need no more of a definition. */
  ghost predicate UsableCodes(codes: set<Bytes>) {
    EachUnreserved(codes) && [] !in codes
  }

  /** A posted page that led back to the code page was a code page itself, so the session holds no code. */
  lemma CodePageComesFromCodePage(cfg: FormConfig, b: Browser, act: Action)
    requires UsableCodes(cfg.codes) && Inv(cfg, b) && Possible(cfg, b, act)
    requires EffectOf(cfg, b, act).view == ViewCode && EffectOf(cfg, b, act).session.Some?
    ensures ACCESS_CODE !in EffectOf(cfg, b, act).session.value
  {
    var http := RequestOf(b, act);
    PageSessions(cfg, http, act.env);
    var page := Posted(b, act);
    assert PageFits(cfg, page, b.tokens);
    PostedEntry(cfg, b, act, ACCESS_CODE);
    if page.view == ViewCode {
      NoVisibleEntry(cfg, page.view, act.entry, ACCESS_CODE);
    }
  }

  /** What the session has to hold for a page of the view to fit. */
  ghost predicate Holds(cfg: FormConfig, view: View, m: SessionMap) {
    match view
    case ViewCode => cfg.HasCodeAccess() && ACCESS_CODE !in m
    case ViewForm => FRESH !in m && (cfg.HasCodeAccess() ==> ACCESS_CODE in m && m[ACCESS_CODE] in cfg.codes)
    case _ =>
      FRESH in m && m[FRESH] == TRUE && (cfg.HasCodeAccess() ==> ACCESS_CODE in m && m[ACCESS_CODE] in cfg.codes)
  }

  lemma PageOfToken(page: Page, token: Bytes, tokens: set<Bytes>)
    requires page.Page? && page.xsrfInput == HiddenInput(FORM_XSRF, token) && AllUnreserved(token) && token in tokens
    ensures CarriesToken(page, tokens) && Token(page) == Some(token)
  {
    TokenInput(token);
  }

  lemma PageOfSession(cfg: FormConfig, view: View, m: SessionMap, page: Page, tokens: set<Bytes>)
    requires Holds(cfg, view, m) && (view == ViewCode || UsableCodes(cfg.codes))
    requires page.Page? && page.view == view && CarriesToken(page, tokens) && Embeds(page.sessionInputs, m)
    ensures PageFits(cfg, page, tokens)
  {
    hide CarriesToken, OnlyEntries, Embeds, Carried, Escape, HasPostForm;
    EmbeddedOnlyEntries(page.sessionInputs, m);
    CarriedEntry(page, m, ACCESS_CODE);
    CarriedEntry(page, m, FRESH);
    EscapeFixedPoint(TRUE);
    EscapeFixedPoint(ValueAt(m, ACCESS_CODE));
  }

  lemma RenderedPageFits(cfg: FormConfig, b: Browser, act: Action, next: Browser)
    requires UsableCodes(cfg.codes) && Inv(cfg, b) && Step(cfg, b, act, next)
    ensures PageFits(cfg, next.pages[|b.pages|], next.tokens)
  {
    var o := EffectOf(cfg, b, act);
    var page := next.pages[|b.pages|];
    if page.Page? && HasPostForm(page.view, cfg.HasCodeAccess()) {
      RenderedSessionHolds(cfg, b, act);
      PageOfToken(page, act.env.token, next.tokens);
      PageOfSession(cfg, o.view, SessionOrEmpty(o.session), page, next.tokens);
    }
  }

  lemma RenderedSessionHolds(cfg: FormConfig, b: Browser, act: Action)
    requires UsableCodes(cfg.codes) && Inv(cfg, b) && Possible(cfg, b, act)
    requires HasPostForm(EffectOf(cfg, b, act).view, cfg.HasCodeAccess())
    ensures Holds(cfg, EffectOf(cfg, b, act).view, SessionOrEmpty(EffectOf(cfg, b, act).session))
  {
    var o := EffectOf(cfg, b, act);
    PageSessions(cfg, RequestOf(b, act), act.env);
    if o.view == ViewCode && o.session.Some? {
      CodePageComesFromCodePage(cfg, b, act);
    }
  }

  lemma MoreTokens(cfg: FormConfig, page: Page, tokens: set<Bytes>, more: set<Bytes>)
    requires PageFits(cfg, page, tokens) && tokens <= more
    ensures PageFits(cfg, page, more)
  {
  }

  lemma StepKeepsInv(cfg: FormConfig, b: Browser, act: Action, next: Browser)
    requires UsableCodes(cfg.codes) && Inv(cfg, b) && Step(cfg, b, act, next)
    ensures Inv(cfg, next)
  {
    hide Handle, PageFits, EffectOf, Possible, UsableCodes;
    RenderedPageFits(cfg, b, act, next);
    forall i | 0 <= i < |b.pages| ensures PageFits(cfg, next.pages[i], next.tokens) {
      assert next.pages[..|b.pages|][i] == next.pages[i];
      MoreTokens(cfg, b.pages[i], b.tokens, next.tokens);
    }
  }
}
