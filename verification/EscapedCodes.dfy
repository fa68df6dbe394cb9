/**
 What becomes of an access code along the pages of a run: each page carries it escaped once
 more, so a form can be submitted with it exactly if it sooner or later meets a code.
 */
module EscapedCodes {
  import opened Wrappers
  import opened QueryEncoding
  import opened FormValues
  import opened Session
  import opened Web
  import opened Engine
  import opened Gates
  import opened Protocol
  import opened Runs
  import opened Codes

  // ---------------------------------------------------------------- codes that meet codes

  /** Code `c`, escaped `n` times, is a code again, and was none after fewer escapes. */
  ghost predicate Meets(codes: set<Bytes>, c: Bytes, n: nat) {
    && c in codes && c != [] && n > 0 && EscapeTimes(n, c) in codes
    && forall k: nat | 0 < k < n :: EscapeTimes(k, c) !in codes
  }

  /** No code meets another one late: each is a code again after one escape or never. */
  ghost predicate MeetsAtOnce(codes: set<Bytes>) {
    forall c, n: nat | Meets(codes, c, n) :: n == 1
  }

  ghost predicate MeetsNothing(codes: set<Bytes>) {
    forall c, n: nat :: !Meets(codes, c, n)
  }

  lemma {:induction false} FirstMeeting(codes: set<Bytes>, c: Bytes, n: nat) returns (k: nat)
    requires c in codes && c != [] && n > 0 && EscapeTimes(n, c) in codes
    ensures k <= n && Meets(codes, c, k)
  {
    if k' :| 0 < k' < n && EscapeTimes(k', c) in codes {
      k := FirstMeeting(codes, c, k');
    } else {
      k := n;
    }
  }

  /** Usable codes are their own escaped form. */
  lemma UsableMeetAtOnce(codes: set<Bytes>)
    requires UsableCodes(codes)
    ensures MeetsAtOnce(codes)
  {
    forall c, n: nat | Meets(codes, c, n) ensures n == 1 {
      EscapeFixedPoint(c);
      assert EscapeTimes(1, c) == EscapeTimes(0, Escape(c)) == c;
    }
  }

  /** A single code meets itself exactly when it is usable. */
  lemma SingleCode(c: Bytes)
    ensures MeetsNothing({c}) <==> c == [] || !AllUnreserved(c)
  {
    if c != [] && AllUnreserved(c) {
      EscapeTimesFixedPoint(1, c);
      assert Meets({c}, c, 1);
    } else {
      forall n: nat ensures !Meets({c}, c, n) {
        if n > 0 {
          EscapeTimesFixedPoint(n, c);
        }
      }
    }
  }

  /** Codes that all hold a reserved character other than `+` and `%` meet nothing. */
  lemma UnsafeMeetNothing(codes: set<Bytes>)
    requires forall c | c in codes :: !AttributeSafe(c)
    ensures MeetsNothing(codes)
  {
    hide EscapeTimes, Escape, AttributeSafe;
    forall c, n: nat ensures !Meets(codes, c, n) {
      if n > 0 {
        EscapeTimesOuter(n - 1, c);
        EscapeIsAttributeSafe(EscapeTimes(n - 1, c));
      }
    }
  }

  lemma {:induction false} EscapeTimesNotEmpty(n: nat, c: Bytes)
    ensures EscapeTimes(n, c) == [] <==> c == []
  {
    if n > 0 {
      EscapedNotEmpty(c);
      EscapeTimesNotEmpty(n - 1, Escape(c));
    }
  }

  // ---------------------------------------------------------------- where a carried code comes from

  /** The page carries a code escaped `n` times, more than once exactly on a code page. */
  ghost predicate ComesFrom(codes: set<Bytes>, page: Page, c: Bytes, n: nat) {
    && page.Page? && c in codes && c != [] && n > 0
    && Carried(page, ACCESS_CODE) == Some(EscapeTimes(n, c))
    && (forall k: nat | 0 < k < n :: EscapeTimes(k, c) !in codes)
    && (page.view == ViewCode <==> n > 1)
  }

  /** What pages carry, whatever the codes are. */
  ghost predicate CodeTraced(codes: set<Bytes>, page: Page) {
    && page.Page?
    && (Carried(page, ACCESS_CODE).GetOr([]) == [] || exists c, n: nat :: ComesFrom(codes, page, c, n))
    && (page.view == ViewForm ==> Carried(page, ACCESS_CODE).Some?)
    && (page.view == ViewSuccess || page.view == ViewFail ==> Carried(page, FRESH) == Some(TRUE))
  }

  /** A page whose session holds one of the codes. */
  lemma FreshlyTraced(codes: set<Bytes>, page: Page, code: Bytes)
    requires page.Page? && page.view != ViewCode && code in codes
    requires Carried(page, ACCESS_CODE) == Some(Escape(code))
    ensures Carried(page, ACCESS_CODE).GetOr([]) == [] || exists c, n: nat :: ComesFrom(codes, page, c, n)
  {
    EscapedNotEmpty(code);
    assert EscapeTimes(1, code) == EscapeTimes(0, Escape(code)) == Escape(code);
    if code != [] {
      assert ComesFrom(codes, page, code, 1);
    }
  }

  /** A code page that was answered to a page whose code was refused. */
  lemma FurtherTraced(codes: set<Bytes>, page: Page, next: Page)
    requires CodeTraced(codes, page) && next.Page? && next.view == ViewCode && Carried(page, ACCESS_CODE).Some?
    requires var v := Carried(page, ACCESS_CODE).value;
      (v !in codes || v == []) && Carried(next, ACCESS_CODE) == Some(Escape(v))
    ensures CodeTraced(codes, next)
  {
    hide Carried;
    var v := Carried(page, ACCESS_CODE).value;
    EscapedNotEmpty(v);
    if v != [] {
      var c, n: nat :| ComesFrom(codes, page, c, n);
      EscapeTimesOuter(n, c);
      assert ComesFrom(codes, next, c, n + 1);
    }
  }

  lemma NextIsTraced(cfg: FormConfig, b: Browser, act: Action, next: Browser)
    requires cfg.HasCodeAccess() && Step(cfg, b, act, next) && Postable(cfg, next.pages[|b.pages|])
    requires act.Post? ==> CarriesToken(Posted(b, act), b.tokens) && CodeTraced(cfg.codes, Posted(b, act))
    ensures CodeTraced(cfg.codes, next.pages[|b.pages|])
  {
    hide Handle, CarriesToken, CodeTraced, ComesFrom, Carried, SessionOf, Embeds, Escape;
    var o, page := EffectOf(cfg, b, act), next.pages[|b.pages|];
    var m := SessionOrEmpty(o.session);
    PageSessions(cfg, RequestOf(b, act), act.env);
    CarriedEntry(page, m, ACCESS_CODE);
    CarriedEntry(page, m, FRESH);
    EscapeFixedPoint(TRUE);
    if page.view != ViewCode {
      FreshlyTraced(cfg.codes, page, m[ACCESS_CODE]);
      TracedByValue(cfg.codes, page);
    } else if ACCESS_CODE in m {
      RefusedCode(cfg, b, act);
      FurtherTraced(cfg.codes, Posted(b, act), page);
    } else {
      TracedByValue(cfg.codes, page);
    }
  }

  lemma TracedByValue(codes: set<Bytes>, page: Page)
    requires page.Page?
    requires Carried(page, ACCESS_CODE).GetOr([]) == [] || exists c, n: nat :: ComesFrom(codes, page, c, n)
    requires page.view == ViewForm ==> Carried(page, ACCESS_CODE).Some?
    requires page.view == ViewSuccess || page.view == ViewFail ==> Carried(page, FRESH) == Some(TRUE)
    ensures CodeTraced(codes, page)
  {
  }

  /** A code in the session of a code page was carried by the page before, and refused. */
  lemma RefusedCode(cfg: FormConfig, b: Browser, act: Action)
    requires cfg.HasCodeAccess() && Possible(cfg, b, act)
    requires act.Post? ==> CarriesToken(Posted(b, act), b.tokens) && CodeTraced(cfg.codes, Posted(b, act))
    requires EffectOf(cfg, b, act).view == ViewCode
    requires ACCESS_CODE in SessionOrEmpty(EffectOf(cfg, b, act).session)
    ensures act.Post? && Carried(Posted(b, act), ACCESS_CODE).Some?
    ensures var v := Carried(Posted(b, act), ACCESS_CODE).value;
      (v !in cfg.codes || v == []) && SessionOrEmpty(EffectOf(cfg, b, act).session)[ACCESS_CODE] == v
  {
    hide Handle, CarriesToken, Carried, SessionOf, ComesFrom;
    PageSessions(cfg, RequestOf(b, act), act.env);
    PostedEntry(cfg, b, act, ACCESS_CODE);
    if Posted(b, act).view != ViewForm {
      NoVisibleEntry(cfg, Posted(b, act).view, act.entry, ACCESS_CODE);
    }
  }

  lemma {:induction false} PageIsTraced(cfg: FormConfig, bs: seq<Browser>, acts: seq<Action>, p: nat)
    requires cfg.HasCodeAccess() && Run(cfg, bs, acts) && p < |acts|
    requires p < |bs[p + 1].pages| && Postable(cfg, bs[p + 1].pages[p])
    ensures CodeTraced(cfg.codes, bs[p + 1].pages[p])
  {
    hide Step, CodeTraced, CarriesToken;
    RunStep(cfg, bs, acts, p);
    PagesGrow(cfg, bs, acts, p, p + 1);
    if acts[p].Post? {
      PostedHasToken(cfg, bs, acts, p);
      PageOrigin(cfg, bs, acts, acts[p].page, p);
      PageIsTraced(cfg, bs, acts, acts[p].page);
    }
    NextIsTraced(cfg, bs[p], acts[p], bs[p + 1]);
  }

  // ---------------------------------------------------------------- what is processed

  /**
   Whatever the codes are, a post of a run whose data is looked at carries a code that has
   just met a code: after one escape on a form page, or after more on a code page.
   */
  lemma ProcessedMeetsCode(cfg: FormConfig, bs: seq<Browser>, acts: seq<Action>, i: nat) returns (c: Bytes, n: nat)
    requires cfg.HasCodeAccess() && Run(cfg, bs, acts) && i < |acts|
    requires Processed(cfg, RequestOf(bs[i], acts[i]), acts[i].env)
    ensures Meets(cfg.codes, c, n) && acts[i].Post?
    ensures Carried(Posted(bs[i], acts[i]), ACCESS_CODE) == Some(EscapeTimes(n, c))
    ensures Posted(bs[i], acts[i]).Page? && Posted(bs[i], acts[i]).view == if n == 1 then ViewForm else ViewCode
  {
    hide Step, CarriesToken, CodeTraced, Processed, RequestOf, Meets;
    RunStep(cfg, bs, acts, i);
    ProcessedIsPosted(cfg, bs[i], acts[i]);
    PostedHasToken(cfg, bs, acts, i);
    PageOrigin(cfg, bs, acts, acts[i].page, i);
    PageIsTraced(cfg, bs, acts, acts[i].page);
    c, n := ProcessedIsCode(cfg, bs[i], acts[i]);
  }

  lemma ProcessedIsPosted(cfg: FormConfig, b: Browser, act: Action)
    requires cfg.HasCodeAccess() && Processed(cfg, RequestOf(b, act), act.env)
    ensures act.Post?
  {
  }

  lemma ProcessedIsCode(cfg: FormConfig, b: Browser, act: Action) returns (c: Bytes, n: nat)
    requires cfg.HasCodeAccess() && Possible(cfg, b, act) && act.Post?
    requires CarriesToken(Posted(b, act), b.tokens) && CodeTraced(cfg.codes, Posted(b, act))
    requires Processed(cfg, RequestOf(b, act), act.env)
    ensures Meets(cfg.codes, c, n) && Carried(Posted(b, act), ACCESS_CODE) == Some(EscapeTimes(n, c))
    ensures Posted(b, act).view == if n == 1 then ViewForm else ViewCode
  {
    hide CheckedCode, WorkingSession, CarriesToken, Carried, SessionOf, EscapeTimes, Group, Body;
    var page := Posted(b, act);
    PostedEntry(cfg, b, act, ACCESS_CODE);
    PostedEntry(cfg, b, act, FRESH);
    if page.view != ViewForm {
      NoVisibleEntry(cfg, page.view, act.entry, ACCESS_CODE);
    }
    CarriedCodeDecides(cfg, RequestOf(b, act));
    c, n :| ComesFrom(cfg.codes, page, c, n);
  }

  /** A form whose codes meet nothing never stores anything, in no run. */
  lemma NothingIsStored(cfg: FormConfig, bs: seq<Browser>, acts: seq<Action>, i: nat)
    requires cfg.HasCodeAccess() && MeetsNothing(cfg.codes) && Run(cfg, bs, acts) && i < |acts|
    ensures !Stores(cfg, bs[i], acts[i])
  {
    hide Handle, Step, Processed;
    StoredExactlyBehindTheGates(cfg, RequestOf(bs[i], acts[i]), acts[i].env);
    if Stores(cfg, bs[i], acts[i]) {
      var _, _ := ProcessedMeetsCode(cfg, bs, acts, i);
    }
  }

  /** Every store of every run is the post of a form page, without codes and with codes none of which meets one late. */
  lemma StoreIsOfForm(cfg: FormConfig, bs: seq<Browser>, acts: seq<Action>, i: nat)
    requires MeetsAtOnce(cfg.codes) && Run(cfg, bs, acts) && i < |acts| && Stores(cfg, bs[i], acts[i])
    ensures acts[i].Post? && Posted(bs[i], acts[i]).Page? && Posted(bs[i], acts[i]).view == ViewForm
  {
    hide Handle, Step, Processed;
    RunStep(cfg, bs, acts, i);
    if cfg.HasCodeAccess() {
      StoredExactlyBehindTheGates(cfg, RequestOf(bs[i], acts[i]), acts[i].env);
      var _, _ := ProcessedMeetsCode(cfg, bs, acts, i);
    } else {
      EveryPageFits(cfg, bs, acts, i);
      StoresOnlyFromForm(cfg, bs[i], acts[i]);
    }
  }

  // ---------------------------------------------------------------- posting again and again

  predicate StaysOpen(b: Browser, act: Action, cfg: FormConfig) {
    && act.env.execution == Completes && IsAllowed(cfg, RequestOf(b, act), act.env)
    && (act.Post? ==> forall i | 0 <= i < |act.entry.inputs| :: act.entry.inputs[i].0 != PREFIX + FRESH)
  }

  /** A browser visits the form, enters the code, and from then on posts whatever page it is given. */
  ghost predicate EntersAndPosts(cfg: FormConfig, bs: seq<Browser>, acts: seq<Action>, c: Bytes) {
    && Run(cfg, bs, acts) && GoesOn(bs, acts) && |acts| >= 2
    && acts[0].Visit? && (forall i | 1 <= i < |acts| :: acts[i].Post?)
    && acts[1].entry.typed == c
    && forall i | 0 <= i < |acts| :: StaysOpen(bs[i], acts[i], cfg)
  }

  /** The page after `n` posts, as long as no code was met: code and token for the next one, and no start marker. */
  ghost predicate CarriesOn(cfg: FormConfig, b: Browser, page: Page, c: Bytes, n: nat) {
    && Postable(cfg, page) && CarriesToken(page, b.tokens)
    && page.view == (if n == 1 then ViewForm else ViewCode)
    && Carried(page, ACCESS_CODE) == Some(EscapeTimes(n, c)) && Carried(page, FRESH) == None
    && b.cookie == Token(page) && b.cookie != Some([])
  }

  /** What posting such a page puts into the session. */
  lemma CarriedOn(cfg: FormConfig, b: Browser, act: Action, c: Bytes, n: nat)
    requires Possible(cfg, b, act) && act.Post? && StaysOpen(b, act, cfg) && CarriesOn(cfg, b, Posted(b, act), c, n)
    ensures var posted := SessionOf(RequestOf(b, act).PostForm());
      ACCESS_CODE in posted && posted[ACCESS_CODE] == EscapeTimes(n, c) && FRESH !in posted
    ensures RequestOf(b, act).XsrfVerified()
  {
    hide CarriesToken, Carried, SessionOf, EscapeTimes, Token;
    var page := Posted(b, act);
    PostedEntry(cfg, b, act, ACCESS_CODE);
    PostedEntry(cfg, b, act, FRESH);
    StoreNeedsToken(b, act);
    if page.view == ViewCode {
      NoVisibleEntry(cfg, page.view, act.entry, FRESH);
    } else {
      NotTyped(act.entry, cfg);
    }
  }

  lemma NotTyped(entry: Entry, cfg: FormConfig)
    requires EntryFits(cfg, entry)
    requires forall i | 0 <= i < |entry.inputs| :: entry.inputs[i].0 != PREFIX + FRESH
    ensures Lookup(VisibleInputs(ViewForm, entry), PREFIX + FRESH) == None
  {
    assert PREFIX <= PREFIX + FRESH;
    assert (PREFIX + FRESH)[2] == 'f' && (PREFIX + TZ)[2] == 't';
    LookupNone(VisibleInputs(ViewForm, entry), PREFIX + FRESH);
  }

  /** A carried code that is none is refused, and stays in the session. */
  lemma CarriedIsRefused(cfg: FormConfig, http: Http, env: Environment)
    requires cfg.HasCodeAccess() && http.verb == POST && http.XsrfVerified() && IsAllowed(cfg, http, env)
    requires var v := ValueAt(SessionOf(http.PostForm()), ACCESS_CODE); v != [] && v !in cfg.codes
    ensures Handle(cfg, http, env).view == ViewCode
    ensures Handle(cfg, http, env).session == Some(SessionOf(http.PostForm()))
  {
    hide SessionOf, Admit;
  }

  lemma {:induction false} CarriesAgain(cfg: FormConfig, bs: seq<Browser>, acts: seq<Action>, c: Bytes, n: nat)
    requires EntersAndPosts(cfg, bs, acts, c) && c in cfg.codes && c != [] && 1 <= n < |acts|
    requires forall k: nat | 0 < k < n :: EscapeTimes(k, c) !in cfg.codes
    ensures |bs[n + 1].pages| == n + 1 && CarriesOn(cfg, bs[n + 1], bs[n + 1].pages[n], c, n)
  {
    hide Step, StaysOpen, EscapeTimes, EntersAndPosts, CarriesOn;
    NextPost(cfg, bs, acts, c, n);
    if n == 1 {
      FormCarries(cfg, bs, acts, c);
    } else {
      CarriesAgain(cfg, bs, acts, c, n - 1);
      EscapeTimesNotEmpty(n - 1, c);
      RefusedCarries(cfg, bs[n], acts[n], bs[n + 1], c, n - 1);
    }
  }

  lemma NextPost(cfg: FormConfig, bs: seq<Browser>, acts: seq<Action>, c: Bytes, n: nat)
    requires EntersAndPosts(cfg, bs, acts, c) && 1 <= n < |acts|
    ensures n + 1 < |bs| && |bs[n].pages| == n && |bs[n + 1].pages| == n + 1
    ensures Step(cfg, bs[n], acts[n], bs[n + 1]) && acts[n].Post? && StaysOpen(bs[n], acts[n], cfg)
    ensures Possible(cfg, bs[n], acts[n]) && Posted(bs[n], acts[n]) == bs[n].pages[n - 1]
  {
    hide Step, StaysOpen, Possible;
    RunStep(cfg, bs, acts, n);
    PagesGrow(cfg, bs, acts, n, n + 1);
  }

  /** A complete code or form page whose session holds the code escaped `n` times and no start marker. */
  lemma PageCarries(cfg: FormConfig, b: Browser, act: Action, next: Browser, c: Bytes, n: nat)
    requires Step(cfg, b, act, next) && act.env.execution == Completes
    requires EffectOf(cfg, b, act).view == (if n == 0 then ViewForm else ViewCode)
    requires var session := EffectOf(cfg, b, act).session;
      && session.Some? && FRESH !in session.value
      && ACCESS_CODE in session.value && session.value[ACCESS_CODE] == EscapeTimes(n, c)
    ensures CarriesOn(cfg, next, next.pages[|b.pages|], c, n + 1)
  {
    hide EffectOf, CarriesToken, Carried, Token, EscapeTimes, Renders, Embeds;
    var page, m := next.pages[|b.pages|], EffectOf(cfg, b, act).session.value;
    PageMatchesCookie(cfg, b, act, next);
    RenderedEmbeds(cfg, b, act, next);
    CarriedEntry(page, m, ACCESS_CODE);
    CarriedEntry(page, m, FRESH);
    EscapeTimesOuter(n, c);
  }

  lemma RenderedEmbeds(cfg: FormConfig, b: Browser, act: Action, next: Browser)
    requires Step(cfg, b, act, next) && Postable(cfg, next.pages[|b.pages|])
    ensures Embeds(next.pages[|b.pages|].sessionInputs, SessionOrEmpty(EffectOf(cfg, b, act).session))
    ensures CarriesToken(next.pages[|b.pages|], next.tokens)
  {
    hide Handle, CarriesToken, Token;
    PageOfToken(next.pages[|b.pages|], act.env.token, next.tokens);
  }

  /** The answer to the code is a form page that carries it escaped once. */
  lemma FormCarries(cfg: FormConfig, bs: seq<Browser>, acts: seq<Action>, c: Bytes)
    requires EntersAndPosts(cfg, bs, acts, c) && c in cfg.codes && c != []
    ensures |bs[1].pages| == 1 && |bs[2].pages| == 2 && CarriesOn(cfg, bs[2], bs[2].pages[1], c, 1)
  {
    hide EffectOf, RequestOf, CarriesOn, Step, IsAllowed;
    assert StaysOpen(bs[0], acts[0], cfg) && StaysOpen(bs[1], acts[1], cfg);
    RunStep(cfg, bs, acts, 1);
    PagesGrow(cfg, bs, acts, 0, 1);
    PagesGrow(cfg, bs, acts, 1, 2);
    CodeOpensFirst(cfg, bs, acts);
    FormSession(cfg, bs[1], acts[1]);
    PageCarries(cfg, bs[1], acts[1], bs[2], c, 0);
  }

  lemma FormSession(cfg: FormConfig, b: Browser, act: Action)
    requires cfg.HasCodeAccess() && EffectOf(cfg, b, act).view == ViewForm
    ensures var session := EffectOf(cfg, b, act).session;
      session.Some? && FRESH !in session.value && ACCESS_CODE in session.value
  {
    hide Handle;
    PageSessions(cfg, RequestOf(b, act), act.env);
  }

  lemma RefusedCarries(cfg: FormConfig, b: Browser, act: Action, next: Browser, c: Bytes, n: nat)
    requires cfg.HasCodeAccess() && Step(cfg, b, act, next) && act.Post? && StaysOpen(b, act, cfg) && n > 0
    requires CarriesOn(cfg, b, Posted(b, act), c, n) && EscapeTimes(n, c) != [] && EscapeTimes(n, c) !in cfg.codes
    ensures CarriesOn(cfg, next, next.pages[|b.pages|], c, n + 1)
  {
    hide Handle, CarriesOn, EscapeTimes, SessionOf, Renders;
    CarriedOn(cfg, b, act, c, n);
    CarriedIsRefused(cfg, RequestOf(b, act), act.env);
    PageCarries(cfg, b, act, next, c, n);
  }

  /**
   Entering a code and then posting each page that comes: as long as no code was met, the
   data of the `n`-th post is looked at exactly if the code escaped `n` times is a code. The
   first post is that of the form, all later ones are posts of code pages.
   */
  lemma PostedAgain(cfg: FormConfig, bs: seq<Browser>, acts: seq<Action>, c: Bytes, n: nat)
    requires EntersAndPosts(cfg, bs, acts, c) && c in cfg.codes && c != [] && n > 0 && n + 1 < |acts|
    requires forall k: nat | 0 < k < n :: EscapeTimes(k, c) !in cfg.codes
    ensures var act, http := acts[n + 1], RequestOf(bs[n + 1], acts[n + 1]);
      && Posted(bs[n + 1], act).Page? && Posted(bs[n + 1], act).view == (if n == 1 then ViewForm else ViewCode)
      && (Processed(cfg, http, act.env) <==> EscapeTimes(n, c) in cfg.codes)
      && (Stores(cfg, bs[n + 1], act) <==>
            EscapeTimes(n, c) in cfg.codes && CaptchasPass(http, act.env) && SubmittedErrors(cfg, http, act.env) == [])
  {
    hide Handle, Step, CarriesOn, StaysOpen, EscapeTimes, Processed, IsAllowed, CaptchasPass, SubmittedErrors;
    var b, act := bs[n + 1], acts[n + 1];
    NextPost(cfg, bs, acts, c, n + 1);
    CarriesAgain(cfg, bs, acts, c, n);
    CarriedDecides(cfg, b, act, c, n);
    StoredExactlyBehindTheGates(cfg, RequestOf(b, act), act.env);
  }

  lemma CarriedDecides(cfg: FormConfig, b: Browser, act: Action, c: Bytes, n: nat)
    requires cfg.HasCodeAccess() && c != [] && Possible(cfg, b, act) && act.Post? && StaysOpen(b, act, cfg)
    requires CarriesOn(cfg, b, Posted(b, act), c, n)
    ensures Processed(cfg, RequestOf(b, act), act.env) <==> EscapeTimes(n, c) in cfg.codes
    ensures Posted(b, act).Page? && Posted(b, act).view == if n == 1 then ViewForm else ViewCode
  {
    hide CheckedCode, WorkingSession, Carried, CarriesToken, Token, EscapeTimes, SessionOf, Group, Body;
    CarriedOn(cfg, b, act, c, n);
    EscapeTimesNotEmpty(n, c);
    CarriedCodeDecides(cfg, RequestOf(b, act));
  }
}
