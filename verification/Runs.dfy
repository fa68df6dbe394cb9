/** Runs as such: their pages, their tokens, and what a post sends besides the session. */
module Runs {
  import opened Wrappers
  import opened QueryEncoding
  import opened FormValues
  import opened Html
  import opened Session
  import opened Web
  import opened Engine
  import opened Gates
  import opened Protocol

  // ---------------------------------------------------------------- pages

  /**
   In every run every page fits: form pages carry a valid code and no start marker, result
   pages a valid code and the marker, code pages never carry a code.
   */
  lemma {:induction false} EveryPageFits(cfg: FormConfig, bs: seq<Browser>, acts: seq<Action>, i: nat)
    requires UsableCodes(cfg.codes) && Run(cfg, bs, acts) && i < |bs|
    ensures Inv(cfg, bs[i])
  {
    hide Step, PageFits, UsableCodes;
    if i > 0 {
      EveryPageFits(cfg, bs, acts, i - 1);
      StepKeepsInv(cfg, bs[i - 1], acts[i - 1], bs[i]);
    }
  }

  /** A browser gets one page for each request and keeps those it has. */
  lemma StepGrows(cfg: FormConfig, b: Browser, act: Action, next: Browser)
    requires Step(cfg, b, act, next)
    ensures |next.pages| == |b.pages| + 1 && next.pages[..|b.pages|] == b.pages
    ensures b.tokens <= next.tokens
  {
    hide Handle;
  }

  lemma {:induction false} PagesGrow(cfg: FormConfig, bs: seq<Browser>, acts: seq<Action>, i: nat, j: nat)
    requires Run(cfg, bs, acts) && i <= j < |bs|
    ensures |bs[i].pages| == i && |bs[j].pages| == j
    ensures bs[j].pages[..i] == bs[i].pages
    ensures bs[i].tokens <= bs[j].tokens
  {
    hide Step;
    if j > 0 {
      PagesGrow(cfg, bs, acts, if i < j then i else i - 1, j - 1);
      StepGrows(cfg, bs[j - 1], acts[j - 1], bs[j]);
      if i < j {
        assert bs[j].pages[..i] == bs[j].pages[..j - 1][..i];
      }
    }
  }

  lemma RunStep(cfg: FormConfig, bs: seq<Browser>, acts: seq<Action>, i: nat)
    requires Run(cfg, bs, acts) && i < |acts|
    ensures Step(cfg, bs[i], acts[i], bs[i + 1]) && Possible(cfg, bs[i], acts[i])
  {
  }

  /** Page `p` of a browser is the answer to its action `p`. */
  lemma PageOrigin(cfg: FormConfig, bs: seq<Browser>, acts: seq<Action>, p: nat, j: nat)
    requires Run(cfg, bs, acts) && p < j < |bs|
    ensures |bs[p].pages| == p && |bs[p + 1].pages| == p + 1 && |bs[j].pages| == j
    ensures bs[j].pages[p] == bs[p + 1].pages[p]
    ensures bs[p].tokens <= bs[p + 1].tokens <= bs[j].tokens
  {
    hide Step;
    PagesGrow(cfg, bs, acts, p, p + 1);
    PagesGrow(cfg, bs, acts, p + 1, j);
    assert bs[j].pages[..p + 1][p] == bs[j].pages[p];
  }

  /** A browser that always goes on from the page it was given last. */
  ghost predicate GoesOn(bs: seq<Browser>, acts: seq<Action>)
    requires |bs| == |acts| + 1
  {
    forall i | 0 <= i < |acts| && acts[i].Post? :: acts[i].page == |bs[i].pages| - 1
  }

  // ---------------------------------------------------------------- tokens

  /** The token that a posted page is checked by is the one it was rendered with. */
  lemma PostedToken(page: Page, entry: Entry, tokens: set<Bytes>)
    requires CarriesToken(page, tokens)
    ensures Get(Group(Body(page, entry)), FORM_XSRF) == Token(page).value
    ensures FORM_XSRF in Group(Body(page, entry)) && Group(Body(page, entry))[FORM_XSRF] != []
  {
    hide ReadInputs, VisibleInputs;
    var rest := ReadInputs(page.sessionInputs) + VisibleInputs(page.view, entry);
    assert Body(page, entry) == ReadInputs(page.xsrfInput) + rest;
    LookupInConcat(ReadInputs(page.xsrfInput), rest, FORM_XSRF);
    GroupLookup(Body(page, entry), FORM_XSRF);
  }

  /** Tokens match exactly when the cookie holds the token of the posted page. */
  lemma StoreNeedsToken(b: Browser, act: Action)
    requires act.Post? && CarriesToken(Posted(b, act), b.tokens)
    ensures RequestOf(b, act).XsrfVerified() <==> b.cookie == Token(Posted(b, act)) && b.cookie != Some([])
  {
    hide Group;
    hide Body;
    hide Token;
    PostedToken(Posted(b, act), act.entry, b.tokens);
  }

  lemma StepCookie(cfg: FormConfig, b: Browser, act: Action, next: Browser)
    requires Step(cfg, b, act, next)
    ensures next.cookie == if DrawsToken(cfg, b, act) then Some(act.env.token) else b.cookie
    ensures act.env.token !in b.tokens
  {
    hide Handle, Renders, Possible, SetsCookie;
  }

  /** A token that left the cookie never comes back. */
  lemma {:induction false} TokenNeverReturns(cfg: FormConfig, bs: seq<Browser>, acts: seq<Action>,
                                             i: nat, j: nat, token: Bytes)
    requires Run(cfg, bs, acts) && i <= j < |bs|
    requires token in bs[i].tokens && bs[i].cookie != Some(token)
    ensures bs[j].cookie != Some(token)
  {
    hide Step;
    if i < j {
      TokenNeverReturns(cfg, bs, acts, i, j - 1, token);
      PagesGrow(cfg, bs, acts, i, j - 1);
      StepCookie(cfg, bs[j - 1], acts[j - 1], bs[j]);
    }
  }

  /** Every page of a run that can be posted posts the token that it was rendered with. */
  lemma PageHasToken(cfg: FormConfig, bs: seq<Browser>, acts: seq<Action>, p: nat, j: nat)
    requires Run(cfg, bs, acts) && p < j < |bs| && p < |bs[j].pages| && Postable(cfg, bs[j].pages[p])
    ensures CarriesToken(bs[j].pages[p], bs[j].tokens)
  {
    hide Handle, CarriesToken, Token, Possible;
    PageOrigin(cfg, bs, acts, p, j);
    RunStep(cfg, bs, acts, p);
    PageOfToken(bs[j].pages[p], acts[p].env.token, bs[j].tokens);
  }

  /** So does the page that an action of a run posts. */
  lemma PostedHasToken(cfg: FormConfig, bs: seq<Browser>, acts: seq<Action>, i: nat)
    requires Run(cfg, bs, acts) && i < |acts| && acts[i].Post?
    ensures acts[i].page < i == |bs[i].pages| && Posted(bs[i], acts[i]) == bs[i].pages[acts[i].page]
    ensures Postable(cfg, Posted(bs[i], acts[i])) && CarriesToken(Posted(bs[i], acts[i]), bs[i].tokens)
  {
    hide Step, CarriesToken;
    RunStep(cfg, bs, acts, i);
    PagesGrow(cfg, bs, acts, i, i);
    PageHasToken(cfg, bs, acts, acts[i].page, i);
  }

  /** A page that was rendered completely holds the token of the cookie that came with it. */
  lemma PageMatchesCookie(cfg: FormConfig, b: Browser, act: Action, next: Browser)
    requires Step(cfg, b, act, next) && act.env.execution == Completes
    requires HasPostForm(EffectOf(cfg, b, act).view, cfg.HasCodeAccess())
    ensures var page := next.pages[|b.pages|];
      && page.Page? && page.view == EffectOf(cfg, b, act).view
      && next.cookie == Token(page) && next.cookie.Some? && next.cookie != Some([])
  {
    hide Handle;
    PageOfToken(next.pages[|b.pages|], act.env.token, next.tokens);
  }

  // ---------------------------------------------------------------- visits and inputs

  lemma VisitStoresNothing(cfg: FormConfig, b: Browser, act: Action)
    requires act.Visit?
    ensures !Stores(cfg, b, act)
  {
    hide Handle;
    StoredExactlyBehindTheGates(cfg, RequestOf(b, act), act.env);
  }

  /** No input of the page is a session entry but the zone, unless a field is named like one. */
  lemma NoInput(cfg: FormConfig, view: View, entry: Entry, k: Bytes)
    requires EntryFits(cfg, entry) && k != TZ && PREFIX + k !in EditableNames(cfg.fields)
    ensures Lookup(VisibleInputs(view, entry), PREFIX + k) == None
  {
    assert PREFIX <= PREFIX + k && (PREFIX + k)[2..] == k && (PREFIX + TZ)[2..] == TZ;
    if view == ViewForm {
      LookupNone(VisibleInputs(view, entry), PREFIX + k);
    } else {
      NoVisibleEntry(cfg, view, entry, k);
    }
  }

  lemma NoCodeNeeded(cfg: FormConfig, http: Http)
    requires !cfg.HasCodeAccess()
    ensures CheckedCode(cfg, http).valid && WorkingSession(cfg, http) == SessionOf(http.PostForm())
  {
  }
}
