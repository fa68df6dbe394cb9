/** What is stored along a run: from which pages, after which tokens, and how often. */
module Stores {
  import opened Wrappers
  import opened QueryEncoding
  import opened Session
  import opened Schema
  import opened Web
  import opened Engine
  import opened Gates
  import opened Protocol
  import opened Runs
  import opened EscapedCodes

  // ---------------------------------------------------------------- new forms

  /** The answer to action `k` was a form page. */
  ghost predicate FormRendered(bs: seq<Browser>, k: nat) {
    && k + 1 < |bs| && k < |bs[k + 1].pages|
    && bs[k + 1].pages[k].Page? && bs[k + 1].pages[k].view == ViewForm
  }

  /**
   Between any two stores of such a browser a new form page was rendered, without codes and
   with codes none of which meets one late.
   */
  lemma FormBetweenStores(cfg: FormConfig, bs: seq<Browser>, acts: seq<Action>, i: nat, j: nat)
    requires MeetsAtOnce(cfg.codes) && Run(cfg, bs, acts) && GoesOn(bs, acts) && i < j < |acts|
    requires Stores(cfg, bs[i], acts[i]) && Stores(cfg, bs[j], acts[j])
    ensures exists k: nat :: i < k < j && FormRendered(bs, k)
  {
    hide Step, Stores, MeetsAtOnce;
    RunStep(cfg, bs, acts, i);
    StoreIsOfForm(cfg, bs, acts, j);
    PostedHasToken(cfg, bs, acts, j);
    PagesGrow(cfg, bs, acts, i, i + 1);
    PagesGrow(cfg, bs, acts, j, j);
    StoreIsAnswered(cfg, bs[i], acts[i], bs[i + 1]);
    assert bs[j] == bs[(j - 1) + 1] && FormRendered(bs, j - 1);
    assert !FormRendered(bs, i);
  }

  lemma StoreIsAnswered(cfg: FormConfig, b: Browser, act: Action, next: Browser)
    requires Step(cfg, b, act, next) && Stores(cfg, b, act)
    ensures next.pages[|b.pages|].Blank? || next.pages[|b.pages|].view != ViewForm
  {
    hide Handle;
    StoredExactlyBehindTheGates(cfg, RequestOf(b, act), act.env);
  }

  /** A store is answered with a new token exactly when its result page holds a form and gets far enough. */
  lemma StoreDrawsToken(cfg: FormConfig, b: Browser, act: Action)
    requires Stores(cfg, b, act)
    ensures DrawsToken(cfg, b, act) <==> cfg.HasCodeAccess() && act.env.execution != FailsBeforeToken
  {
    hide Handle;
    StoredExactlyBehindTheGates(cfg, RequestOf(b, act), act.env);
  }

  lemma StoreHasToken(cfg: FormConfig, b: Browser, act: Action)
    requires cfg.xsrf && Stores(cfg, b, act) && act.Post? && CarriesToken(Posted(b, act), b.tokens)
    ensures b.cookie == Token(Posted(b, act))
  {
    hide Handle, CarriesToken, Token, Posted;
    TokenGuardsPosts(cfg, RequestOf(b, act), act.env);
    StoreNeedsToken(b, act);
  }

  /**
   With tokens on, the page of a store is never older than a token drawn before: the browser
   may go back, but not to a page from before that token.
   */
  lemma StoredPageIsNew(cfg: FormConfig, bs: seq<Browser>, acts: seq<Action>, k: nat, j: nat)
    requires cfg.xsrf && Run(cfg, bs, acts) && k < j < |acts|
    requires DrawsToken(cfg, bs[k], acts[k]) && Stores(cfg, bs[j], acts[j])
    ensures acts[j].Post? && k <= acts[j].page < j
  {
    hide Step, Stores, DrawsToken, CarriesToken, Postable;
    if acts[j].Visit? {
      VisitStoresNothing(cfg, bs[j], acts[j]);
    }
    PostedHasToken(cfg, bs, acts, j);
    StoreHasToken(cfg, bs[j], acts[j]);
    var p := acts[j].page;
    if p < k {
      PageOrigin(cfg, bs, acts, p, k);
      PageOrigin(cfg, bs, acts, p, j);
      PageHasToken(cfg, bs, acts, p, k);
      TokenIsKnown(bs[k].pages[p], bs[k].tokens);
      RunStep(cfg, bs, acts, k);
      StepCookie(cfg, bs[k], acts[k], bs[k + 1]);
      PagesGrow(cfg, bs, acts, k, k + 1);
      TokenNeverReturns(cfg, bs, acts, k + 1, j, Token(Posted(bs[j], acts[j])).value);
    }
  }

  lemma TokenIsKnown(page: Page, tokens: set<Bytes>)
    requires CarriesToken(page, tokens)
    ensures Token(page).Some? && Token(page).value in tokens
  {
  }

  /** That page is a form page, without codes and with codes none of which meets one late. */
  lemma StoredFormIsNew(cfg: FormConfig, bs: seq<Browser>, acts: seq<Action>, k: nat, j: nat)
    requires MeetsAtOnce(cfg.codes) && cfg.xsrf && Run(cfg, bs, acts) && k < j < |acts|
    requires DrawsToken(cfg, bs[k], acts[k]) && Stores(cfg, bs[j], acts[j])
    ensures acts[j].Post? && k <= acts[j].page < j && FormRendered(bs, acts[j].page)
  {
    hide Step, Stores, DrawsToken, MeetsAtOnce;
    StoredPageIsNew(cfg, bs, acts, k, j);
    StoreIsOfForm(cfg, bs, acts, j);
    PostedHasToken(cfg, bs, acts, j);
    PageOrigin(cfg, bs, acts, acts[j].page, j);
  }

  /**
   With tokens and codes on, a new form page was rendered between any two stores, and the
   second store is the post of such a page, even for a browser that goes back to older
   pages; unless the result page of the first store broke before it drew its token.
   */
  lemma NewFormForEachStore(cfg: FormConfig, bs: seq<Browser>, acts: seq<Action>, i: nat, j: nat)
    requires MeetsAtOnce(cfg.codes) && cfg.HasCodeAccess() && cfg.xsrf && Run(cfg, bs, acts) && i < j < |acts|
    requires Stores(cfg, bs[i], acts[i]) && Stores(cfg, bs[j], acts[j])
    requires acts[i].env.execution != FailsBeforeToken
    ensures acts[j].Post? && i < acts[j].page < j && FormRendered(bs, acts[j].page)
  {
    hide Handle, Step, MeetsAtOnce, Stores, DrawsToken;
    StoreDrawsToken(cfg, bs[i], acts[i]);
    StoredFormIsNew(cfg, bs, acts, i, j);
    RunStep(cfg, bs, acts, i);
    StoreIsAnswered(cfg, bs[i], acts[i], bs[i + 1]);
    PagesGrow(cfg, bs, acts, i, i + 1);
  }

  /** Some answer from action `i` on and before action `j` replaced the token. */
  ghost predicate TokenDrawn(cfg: FormConfig, bs: seq<Browser>, acts: seq<Action>, i: nat, j: nat)
    requires j <= |acts| < |bs|
  {
    exists k: nat :: i <= k < j && DrawsToken(cfg, bs[k], acts[k])
  }

  /**
   With tokens on, one page is stored twice only if no token was drawn in between,
   which with codes means that the first result page broke before drawing its own.
   */
  lemma PageStoredOnce(cfg: FormConfig, bs: seq<Browser>, acts: seq<Action>, i: nat, j: nat)
    requires cfg.xsrf && Run(cfg, bs, acts) && i < j < |acts|
    requires acts[i].Post? && acts[j].Post? && acts[i].page == acts[j].page
    requires Stores(cfg, bs[i], acts[i]) && Stores(cfg, bs[j], acts[j])
    ensures !TokenDrawn(cfg, bs, acts, i, j)
    ensures cfg.HasCodeAccess() ==> acts[i].env.execution == FailsBeforeToken
  {
    hide Handle, Step, Stores, DrawsToken;
    PostedHasToken(cfg, bs, acts, i);
    forall k: nat | i <= k < j ensures !DrawsToken(cfg, bs[k], acts[k]) {
      if DrawsToken(cfg, bs[k], acts[k]) {
        StoredPageIsNew(cfg, bs, acts, k, j);
      }
    }
    StoreDrawsToken(cfg, bs[i], acts[i]);
  }

  // ---------------------------------------------------------------- the same page posted again

  lemma {:induction false} CookieKept(cfg: FormConfig, bs: seq<Browser>, acts: seq<Action>, i: nat, j: nat)
    requires Run(cfg, bs, acts) && i <= j < |bs| && !TokenDrawn(cfg, bs, acts, i, j)
    ensures bs[j].cookie == bs[i].cookie
  {
    hide Step, DrawsToken;
    if i < j {
      CookieKept(cfg, bs, acts, i, j - 1);
      RunStep(cfg, bs, acts, j - 1);
      StepCookie(cfg, bs[j - 1], acts[j - 1], bs[j]);
    }
  }

  lemma StoredWhateverTheCookie(cfg: FormConfig, http: Http, env: Environment, cookie: Option<Bytes>, token: Bytes)
    requires !cfg.xsrf || cookie == http.cookie
    ensures Handle(cfg, http.(cookie := cookie), env.(token := token)).stored == Handle(cfg, http, env).stored
  {
    hide Handle, ErrorsOf, FieldsOf, LocationOf, SessionOf;
    StoredExactlyBehindTheGates(cfg, http, env);
    StoredExactlyBehindTheGates(cfg, http.(cookie := cookie), env.(token := token));
  }

  /** With tokens off, or the same one still in the cookie, posting a page again stores the same record again. */
  lemma RepeatedPostStoresAgain(cfg: FormConfig, bs: seq<Browser>, acts: seq<Action>, i: nat, j: nat)
    requires Run(cfg, bs, acts) && i < j < |acts| && (!cfg.xsrf || bs[j].cookie == bs[i].cookie)
    requires acts[i].Post? && acts[j] == acts[i].(env := acts[i].env.(token := acts[j].env.token))
    ensures EffectOf(cfg, bs[j], acts[j]).stored == EffectOf(cfg, bs[i], acts[i]).stored
  {
    hide Handle, Step;
    PostedHasToken(cfg, bs, acts, i);
    PagesGrow(cfg, bs, acts, i, j);
    assert bs[j].pages[..i][acts[i].page] == bs[j].pages[acts[j].page];
    assert Posted(bs[j], acts[j]) == Posted(bs[i], acts[i]);
    StoredWhateverTheCookie(cfg, RequestOf(bs[i], acts[i]), acts[i].env, bs[j].cookie, acts[j].env.token);
  }

  /** A post that was stored, sent again later: exactly a token drawn in between keeps it from being stored again. */
  lemma RepeatedPost(cfg: FormConfig, bs: seq<Browser>, acts: seq<Action>, i: nat, j: nat)
    requires Run(cfg, bs, acts) && i < j < |acts| && Stores(cfg, bs[i], acts[i])
    requires acts[j] == acts[i].(env := acts[i].env.(token := acts[j].env.token))
    ensures Stores(cfg, bs[j], acts[j]) <==> !cfg.xsrf || !TokenDrawn(cfg, bs, acts, i, j)
  {
    hide Handle, Step, DrawsToken, TokenDrawn;
    if acts[i].Visit? {
      VisitStoresNothing(cfg, bs[i], acts[i]);
    }
    if !cfg.xsrf || !TokenDrawn(cfg, bs, acts, i, j) {
      if cfg.xsrf {
        CookieKept(cfg, bs, acts, i, j);
      }
      RepeatedPostStoresAgain(cfg, bs, acts, i, j);
    } else if Stores(cfg, bs[j], acts[j]) {
      PageStoredOnce(cfg, bs, acts, i, j);
    }
  }

  /**
   Sent again at once, as by a reload of the result page: stored again exactly with tokens
   off, or without codes, whose result pages draw no token, or after a broken result page.
   */
  lemma ReloadStoresAgain(cfg: FormConfig, bs: seq<Browser>, acts: seq<Action>, i: nat)
    requires Run(cfg, bs, acts) && i + 1 < |acts| && Stores(cfg, bs[i], acts[i])
    requires acts[i + 1] == acts[i].(env := acts[i].env.(token := acts[i + 1].env.token))
    ensures Stores(cfg, bs[i + 1], acts[i + 1])
       <==> !cfg.xsrf || !cfg.HasCodeAccess() || acts[i].env.execution == FailsBeforeToken
  {
    hide Handle, Step, Stores, DrawsToken;
    RepeatedPost(cfg, bs, acts, i, i + 1);
    StoreDrawsToken(cfg, bs[i], acts[i]);
    assert DrawsToken(cfg, bs[i], acts[i]) ==> TokenDrawn(cfg, bs, acts, i, i + 1);
  }
}
