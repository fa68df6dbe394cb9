/** Forms with access codes: entering a code, and posting the pages that carry it. */
module Codes {
  import opened Wrappers
  import opened QueryEncoding
  import opened FormValues
  import opened Html
  import opened Session
  import opened Web
  import opened Engine
  import opened Gates
  import opened Protocol
  import opened Runs

  // ---------------------------------------------------------------- from which pages is stored

  /** Nothing is stored but on the post of a form page. */
  lemma StoresOnlyFromForm(cfg: FormConfig, b: Browser, act: Action)
    requires Inv(cfg, b) && Possible(cfg, b, act) && Stores(cfg, b, act)
    ensures act.Post? && Posted(b, act).Page? && Posted(b, act).view == ViewForm
  {
    var http := RequestOf(b, act);
    StoredExactlyBehindTheGates(cfg, http, act.env);
    if act.Post? && Posted(b, act).view != ViewForm {
      var page := Posted(b, act);
      assert PageFits(cfg, page, b.tokens);
      StartsAfresh(cfg, b, act);
    }
  }

  /** A post of any other page is a start: its data is not looked at. */
  lemma StartsAfresh(cfg: FormConfig, b: Browser, act: Action)
    requires Possible(cfg, b, act) && act.Post? && Posted(b, act).view != ViewForm
    requires PageFits(cfg, Posted(b, act), b.tokens)
    ensures ValueAt(WorkingSession(cfg, RequestOf(b, act)), FRESH) == TRUE
  {
    var page := Posted(b, act);
    PostedEntry(cfg, b, act, ACCESS_CODE);
    PostedEntry(cfg, b, act, FRESH);
    NoVisibleEntry(cfg, page.view, act.entry, ACCESS_CODE);
    if cfg.HasCodeAccess() {
      CarriedCodeDecides(cfg, RequestOf(b, act));
    }
  }

  // ---------------------------------------------------------------- entering a code

  /**
   On any code page that fits, as all of a run with usable codes do however many wrong codes
   came before, a valid code opens the form and stores nothing.
   */
  lemma CodeOpensForm(cfg: FormConfig, b: Browser, act: Action)
    requires Possible(cfg, b, act) && act.Post? && Posted(b, act).view == ViewCode
    requires PageFits(cfg, Posted(b, act), b.tokens)
    requires act.entry.typed in cfg.codes
    requires IsAllowed(cfg, RequestOf(b, act), act.env)
    requires cfg.xsrf ==> b.cookie == Token(Posted(b, act)) && b.cookie != Some([])
    ensures var o := EffectOf(cfg, b, act);
      && o.view == ViewForm && o.status == OK && o.stored == None
      && o.session.Some? && ValueAt(o.session.value, ACCESS_CODE) == act.entry.typed
  {
    var page := Posted(b, act);
    var http := RequestOf(b, act);
    if cfg.xsrf {
      StoreNeedsToken(b, act);
    }
    PostedEntry(cfg, b, act, ACCESS_CODE);
    NoVisibleEntry(cfg, page.view, act.entry, ACCESS_CODE);
    TypedCode(b, page, act.entry);
    CarriedCodeDecides(cfg, http);
  }

  lemma TypedCode(b: Browser, page: Page, entry: Entry)
    requires page.Page? && page.view == ViewCode && CarriesToken(page, b.tokens) && OnlyEntries(page.sessionInputs)
    ensures Get(Group(Body(page, entry)), ACCESS_CODE) == entry.typed
  {
    var xsrf, session := ReadInputs(page.xsrfInput), ReadInputs(page.sessionInputs);
    assert ACCESS_CODE[0] == 'a' && FORM_XSRF[0] == '_' && PREFIX[0] == '_';
    forall i | 0 <= i < |session| ensures session[i].0 != ACCESS_CODE {
      assert session[i].0[0] == PREFIX[0];
    }
    LookupNone(xsrf, ACCESS_CODE);
    LookupNone(session, ACCESS_CODE);
    LookupInConcat(xsrf, session, ACCESS_CODE);
    LookupInConcat(xsrf + session, VisibleInputs(page.view, entry), ACCESS_CODE);
    assert Lookup(VisibleInputs(page.view, entry), ACCESS_CODE) == Some(entry.typed);
    GroupLookup(Body(page, entry), ACCESS_CODE);
  }

  /** The first page of a form with codes, for everyone whom the policy allows. */
  lemma VisitAsksForCode(cfg: FormConfig, b: Browser, act: Action)
    requires cfg.HasCodeAccess() && act.Visit? && IsAllowed(cfg, RequestOf(b, act), act.env)
    ensures EffectOf(cfg, b, act).view == ViewCode && EffectOf(cfg, b, act).stored == None
  {
  }

  lemma CodePageFits(cfg: FormConfig, b: Browser, act: Action, next: Browser)
    requires cfg.HasCodeAccess() && Step(cfg, b, act, next) && act.Visit? && act.env.execution == Completes
    requires EffectOf(cfg, b, act).view == ViewCode
    ensures PageFits(cfg, next.pages[|b.pages|], next.tokens)
  {
    hide CheckedCode, Admit, PageFits, CarriesToken;
    var page := next.pages[|b.pages|];
    HandledBy(cfg, RequestOf(b, act), act.env);
    NoCheckWithoutCodes(cfg, RequestOf(b, act));
    PageOfToken(page, act.env.token, next.tokens);
    PageOfSession(cfg, ViewCode, map[], page, next.tokens);
  }

  /** Whatever the codes are: on the first page of a run any of them opens the form. */
  lemma CodeOpensFirst(cfg: FormConfig, bs: seq<Browser>, acts: seq<Action>)
    requires cfg.HasCodeAccess() && Run(cfg, bs, acts) && |acts| >= 2
    requires acts[0].Visit? && acts[1].Post? && acts[1].page == 0
    requires acts[0].env.execution == Completes && acts[1].entry.typed in cfg.codes
    requires IsAllowed(cfg, RequestOf(bs[0], acts[0]), acts[0].env)
    requires IsAllowed(cfg, RequestOf(bs[1], acts[1]), acts[1].env)
    ensures !Stores(cfg, bs[0], acts[0]) && !Stores(cfg, bs[1], acts[1])
    ensures Posted(bs[1], acts[1]).Page? && Posted(bs[1], acts[1]).view == ViewCode
    ensures EffectOf(cfg, bs[1], acts[1]).view == ViewForm
    ensures var session := EffectOf(cfg, bs[1], acts[1]).session;
      session.Some? && ValueAt(session.value, ACCESS_CODE) == acts[1].entry.typed
  {
    hide Handle, Step, Possible, PageFits, RequestOf, IsAllowed, Token;
    RunStep(cfg, bs, acts, 0);
    RunStep(cfg, bs, acts, 1);
    PagesGrow(cfg, bs, acts, 0, 1);
    VisitAsksForCode(cfg, bs[0], acts[0]);
    PageMatchesCookie(cfg, bs[0], acts[0], bs[1]);
    CodePageFits(cfg, bs[0], acts[0], bs[1]);
    CodeOpensForm(cfg, bs[1], acts[1]);
  }

  // ---------------------------------------------------------------- posting a form page

  /** A form page as it is rendered for the session `m`. */
  ghost predicate FormPageFor(page: Page, tokens: set<Bytes>, m: SessionMap) {
    && page.Page? && page.view == ViewForm && CarriesToken(page, tokens)
    && Embeds(page.sessionInputs, m) && FRESH !in m && ACCESS_CODE in m
  }

  /**
   Whether the data of that form page is looked at when it is posted, for every definition:
   exactly when the code is not empty and its escaped form is a code again.
   */
  lemma FormPageIsProcessed(cfg: FormConfig, b: Browser, act: Action, m: SessionMap)
    requires cfg.HasCodeAccess() && PREFIX + FRESH !in EditableNames(cfg.fields)
    requires Possible(cfg, b, act) && act.Post? && FormPageFor(Posted(b, act), b.tokens, m)
    requires IsAllowed(cfg, RequestOf(b, act), act.env)
    requires cfg.xsrf ==> b.cookie == Token(Posted(b, act)) && b.cookie != Some([])
    ensures Processed(cfg, RequestOf(b, act), act.env) <==> m[ACCESS_CODE] != [] && Escape(m[ACCESS_CODE]) in cfg.codes
  {
    hide CheckedCode, WorkingSession, Possible, Embeds;
    FormPagePosts(cfg, b, act, m);
    EscapedNotEmpty(m[ACCESS_CODE]);
    CarriedCodeDecides(cfg, RequestOf(b, act));
    if cfg.xsrf {
      StoreNeedsToken(b, act);
    }
  }

  /** Posting it sends the code escaped once, and no start marker. */
  lemma FormPagePosts(cfg: FormConfig, b: Browser, act: Action, m: SessionMap)
    requires PREFIX + FRESH !in EditableNames(cfg.fields)
    requires Possible(cfg, b, act) && act.Post? && FormPageFor(Posted(b, act), b.tokens, m)
    ensures ValueAt(SessionOf(RequestOf(b, act).PostForm()), ACCESS_CODE) == Escape(m[ACCESS_CODE])
    ensures FRESH !in SessionOf(RequestOf(b, act).PostForm())
  {
    hide Embeds, Lookup, Escape, SessionOf, Group, Body, VisibleInputs, Carried, EditableNames, CarriesToken;
    CarriedEntry(Posted(b, act), m, ACCESS_CODE);
    CarriedEntry(Posted(b, act), m, FRESH);
    PostedEntry(cfg, b, act, ACCESS_CODE);
    PostedEntry(cfg, b, act, FRESH);
    NoInput(cfg, ViewForm, act.entry, FRESH);
  }

  lemma EscapedNotEmpty(s: Bytes)
    ensures Escape(s) == [] <==> s == []
  {
    if s != [] {
      assert EscapeOctet(s[0]) != [];
    }
  }

  /**
   With usable codes, or none, every form page of a run submits: posted with its own token
   by someone the policy allows, it is stored exactly when captchas and fields are in order.
   */
  lemma FormPageSubmits(cfg: FormConfig, b: Browser, act: Action)
    requires UsableCodes(cfg.codes) && Inv(cfg, b) && Possible(cfg, b, act)
    requires act.Post? && Posted(b, act).view == ViewForm && PREFIX + FRESH !in EditableNames(cfg.fields)
    requires IsAllowed(cfg, RequestOf(b, act), act.env)
    requires cfg.xsrf ==> b.cookie == Token(Posted(b, act)) && b.cookie != Some([])
    ensures Processed(cfg, RequestOf(b, act), act.env)
    ensures Stores(cfg, b, act) <==>
              CaptchasPass(RequestOf(b, act), act.env) && SubmittedErrors(cfg, RequestOf(b, act), act.env) == []
  {
    hide Handle, CheckedCode, Lookup, Group, Body, VisibleInputs, Carried, EditableNames, SessionOf;
    var page := Posted(b, act);
    assert PageFits(cfg, page, b.tokens);
    PostedEntry(cfg, b, act, ACCESS_CODE);
    PostedEntry(cfg, b, act, FRESH);
    NoInput(cfg, ViewForm, act.entry, FRESH);
    if cfg.HasCodeAccess() {
      CarriedCodeDecides(cfg, RequestOf(b, act));
    } else {
      NoCodeNeeded(cfg, RequestOf(b, act));
    }
    if cfg.xsrf {
      StoreNeedsToken(b, act);
    }
    StoredExactlyBehindTheGates(cfg, RequestOf(b, act), act.env);
  }

  /**
   How a form with usable codes is meant to be used: visit it, enter a code, submit. The
   last step stores exactly when captchas and fields are in order, the first two never do.
   */
  lemma VisitEnterSubmit(cfg: FormConfig, bs: seq<Browser>, acts: seq<Action>)
    requires UsableCodes(cfg.codes) && cfg.HasCodeAccess() && PREFIX + FRESH !in EditableNames(cfg.fields)
    requires |acts| == 3 && Run(cfg, bs, acts)
    requires acts[0].Visit? && acts[1].Post? && acts[2].Post? && GoesOn(bs, acts)
    requires acts[1].entry.typed in cfg.codes
    requires forall i | 0 <= i < 3 ::
               acts[i].env.execution == Completes && IsAllowed(cfg, RequestOf(bs[i], acts[i]), acts[i].env)
    ensures !Stores(cfg, bs[0], acts[0]) && !Stores(cfg, bs[1], acts[1])
    ensures Posted(bs[1], acts[1]).Page? && Posted(bs[1], acts[1]).view == ViewCode
    ensures Posted(bs[2], acts[2]).Page? && Posted(bs[2], acts[2]).view == ViewForm
    ensures Stores(cfg, bs[2], acts[2]) <==>
              CaptchasPass(RequestOf(bs[2], acts[2]), acts[2].env)
              && SubmittedErrors(cfg, RequestOf(bs[2], acts[2]), acts[2].env) == []
  {
    hide Handle, Step, Possible, Inv, UsableCodes, RequestOf, EditableNames, IsAllowed, Token;
    RunStep(cfg, bs, acts, 1);
    RunStep(cfg, bs, acts, 2);
    PagesGrow(cfg, bs, acts, 0, 1);
    PagesGrow(cfg, bs, acts, 1, 2);
    CodeOpensFirst(cfg, bs, acts);
    PageMatchesCookie(cfg, bs[1], acts[1], bs[2]);
    EveryPageFits(cfg, bs, acts, 2);
    FormPageSubmits(cfg, bs[2], acts[2]);
  }

  /** Every form page can be posted: what `FormPageIsProcessed` asks of a code holds of all of them. */
  ghost predicate EveryCodeResubmits(codes: set<Bytes>) {
    forall c | c in codes :: c != [] && Escape(c) in codes
  }

  /** All codes of a definition can be used exactly when none is empty and all are unreserved. */
  lemma CodesAreUsable(codes: set<Bytes>)
    ensures EveryCodeResubmits(codes) <==> UsableCodes(codes)
  {
    ClosedUnderEscape(codes);
    if UsableCodes(codes) {
      forall c | c in codes ensures c != [] && Escape(c) in codes {
        assert EscapeClosed(codes);
      }
    }
    if EveryCodeResubmits(codes) {
      assert [] !in codes && EscapeClosed(codes);
    }
  }
}
