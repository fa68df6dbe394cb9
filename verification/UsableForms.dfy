/** Which definitions with access codes can be submitted at all, and from which pages. */
module UsableForms {
  import opened Wrappers
  import opened QueryEncoding
  import opened Schema
  import opened Web
  import opened Engine
  import opened Gates
  import opened Protocol
  import opened Runs
  import opened Codes
  import opened EscapedCodes

  // ---------------------------------------------------------------- a run that enters a code

  /** There is always one more token. */
  lemma {:induction false} LongerThanAll(tokens: set<Bytes>) returns (t: Bytes)
    ensures t != [] && AllUnreserved(t) && forall s | s in tokens :: |s| < |t|
  {
    t := "a";
    if tokens != {} {
      var s :| s in tokens;
      t := LongerThanAll(tokens - {s});
      if |t| <= |s| {
        t := seq(|s| + 1, i => 'a');
      }
    }
  }

  lemma TokenExists(b: Browser) returns (token: Bytes)
    ensures FreshToken(b, token)
  {
    token := LongerThanAll(b.tokens);
  }

  /** An environment that lets everyone in and in which nothing breaks. */
  function Welcoming(token: Bytes): Environment {
    var lib := Library(
      (pattern, text) => false, text => Failure([]), (text, loc) => Failure([]), (text, loc) => Failure([]),
      name => None
    );
    Environment(lib, true, [], Saved(map[]), Completes, token)
  }

  const ANYONE: Sender := Sender(map[], map[], None)

  function Typing(c: Bytes): Entry {
    Entry(c, [], [], [])
  }

  function PostOf(page: nat, c: Bytes, token: Bytes): Action {
    Post(page, Typing(c), ANYONE, Welcoming(token))
  }

  lemma PostIsPossible(cfg: FormConfig, b: Browser, page: nat, c: Bytes, token: Bytes)
    requires page < |b.pages| && Postable(cfg, b.pages[page])
    ensures Possible(cfg, b, PostOf(page, c, token)) && StaysOpen(b, PostOf(page, c, token), cfg)
  {
  }

  lemma VisitExists(cfg: FormConfig) returns (b: Browser, visit: Action, next: Browser)
    requires cfg.HasCodeAccess()
    ensures Protocol.Start(b) && visit.Visit? && StaysOpen(b, visit, cfg) && Step(cfg, b, visit, next)
    ensures |next.pages| == 1 && Postable(cfg, next.pages[0])
  {
    hide Step, EffectOf, Postable;
    b := Browser([], None, {});
    var token := TokenExists(b);
    visit := Visit(ANYONE, Welcoming(token));
    next := StepExists(cfg, b, visit);
    StepGrows(cfg, b, visit, next);
    VisitAsksForCode(cfg, b, visit);
    PageMatchesCookie(cfg, b, visit, next);
    CodePageIsPostable(cfg, next.pages[0]);
  }

  lemma VisitAndEnter(cfg: FormConfig, c: Bytes) returns (bs: seq<Browser>, acts: seq<Action>)
    requires cfg.HasCodeAccess()
    ensures |acts| == 2 && EntersAndPosts(cfg, bs, acts, c)
  {
    hide Step, Postable, StaysOpen;
    var b0, visit, b1 := VisitExists(cfg);
    var token := TokenExists(b1);
    PostIsPossible(cfg, b1, 0, c, token);
    var b2 := StepExists(cfg, b1, PostOf(0, c, token));
    bs, acts := [b0, b1, b2], [visit, PostOf(0, c, token)];
  }

  lemma CodePageIsPostable(cfg: FormConfig, page: Page)
    requires page.Page? && page.view == ViewCode
    ensures Postable(cfg, page)
  {
  }

  lemma OneMorePost(cfg: FormConfig, bs: seq<Browser>, acts: seq<Action>, c: Bytes, act: Action, next: Browser)
    requires EntersAndPosts(cfg, bs, acts, c) && act.Post? && act.page == |bs[|acts|].pages| - 1
    requires Step(cfg, bs[|acts|], act, next) && StaysOpen(bs[|acts|], act, cfg)
    ensures EntersAndPosts(cfg, bs + [next], acts + [act], c)
  {
    hide Step, StaysOpen;
  }

  /** A run that enters the code and then makes `n` posts, the first that may meet a code being the last. */
  lemma {:induction false} RunExists(cfg: FormConfig, c: Bytes, n: nat) returns (bs: seq<Browser>, acts: seq<Action>)
    requires c in cfg.codes && c != [] && forall k: nat | 0 < k < n :: EscapeTimes(k, c) !in cfg.codes
    ensures |acts| == n + 2 && EntersAndPosts(cfg, bs, acts, c)
  {
    hide Step, EscapeTimes, EntersAndPosts, Carried, CarriesToken, Postable;
    assert cfg.HasCodeAccess();
    if n == 0 {
      bs, acts := VisitAndEnter(cfg, c);
    } else {
      bs, acts := RunExists(cfg, c, n - 1);
      CarriesAgain(cfg, bs, acts, c, n);
      RunLength(cfg, bs, acts, c);
      var b := bs[n + 1];
      var token := TokenExists(b);
      PostIsPossible(cfg, b, n, c, token);
      var next := StepExists(cfg, b, PostOf(n, c, token));
      OneMorePost(cfg, bs, acts, c, PostOf(n, c, token), next);
      bs, acts := bs + [next], acts + [PostOf(n, c, token)];
    }
  }

  lemma RunLength(cfg: FormConfig, bs: seq<Browser>, acts: seq<Action>, c: Bytes)
    requires EntersAndPosts(cfg, bs, acts, c)
    ensures |bs| == |acts| + 1
  {
  }

  // ---------------------------------------------------------------- exactly which definitions

  /** Action `i` of the run has its data looked at, so it is stored if captchas and fields are in order. */
  ghost predicate ProcessedIn(cfg: FormConfig, bs: seq<Browser>, acts: seq<Action>, i: nat) {
    Run(cfg, bs, acts) && i < |acts| && Processed(cfg, RequestOf(bs[i], acts[i]), acts[i].env)
  }

  ghost predicate ProcessedInFromCodePage(cfg: FormConfig, bs: seq<Browser>, acts: seq<Action>, i: nat) {
    && ProcessedIn(cfg, bs, acts, i)
    && Posted(bs[i], acts[i]).Page? && Posted(bs[i], acts[i]).view == ViewCode
  }

  ghost predicate CanBeSubmitted(cfg: FormConfig) {
    exists bs, acts, i: nat :: ProcessedIn(cfg, bs, acts, i)
  }

  ghost predicate CanBeSubmittedFromCodePage(cfg: FormConfig) {
    exists bs, acts, i: nat :: ProcessedInFromCodePage(cfg, bs, acts, i)
  }

  lemma MeetingIsProcessed(cfg: FormConfig, c: Bytes, n: nat) returns (bs: seq<Browser>, acts: seq<Action>)
    requires Meets(cfg.codes, c, n)
    ensures ProcessedIn(cfg, bs, acts, n + 1)
    ensures Posted(bs[n + 1], acts[n + 1]).Page?
    ensures Posted(bs[n + 1], acts[n + 1]).view == if n == 1 then ViewForm else ViewCode
  {
    hide Step, EscapeTimes, Processed, Stores, StaysOpen;
    bs, acts := RunExists(cfg, c, n);
    PostedAgain(cfg, bs, acts, c, n);
  }

  /** A form with codes can be submitted in some run exactly if one of its codes meets a code. */
  lemma SubmittedIfMeeting(cfg: FormConfig)
    requires cfg.HasCodeAccess()
    ensures CanBeSubmitted(cfg) <==> !MeetsNothing(cfg.codes)
  {
    hide Run, Processed, RequestOf, Meets;
    if bs, acts, i: nat :| ProcessedIn(cfg, bs, acts, i) {
      var c, n := ProcessedMeetsCode(cfg, bs, acts, i);
      assert Meets(cfg.codes, c, n);
    }
    if c, n: nat :| Meets(cfg.codes, c, n) {
      var bs, acts := MeetingIsProcessed(cfg, c, n);
    }
  }

  /** It can be submitted from a code page, which is no form, exactly if a code meets one late. */
  lemma CodePageSubmitsIfMeetingLate(cfg: FormConfig)
    requires cfg.HasCodeAccess()
    ensures CanBeSubmittedFromCodePage(cfg) <==> !MeetsAtOnce(cfg.codes)
  {
    hide Run, Processed, RequestOf, Meets;
    if bs, acts, i: nat :| ProcessedInFromCodePage(cfg, bs, acts, i) {
      var c, n := ProcessedMeetsCode(cfg, bs, acts, i);
      assert Meets(cfg.codes, c, n) && n != 1;
    }
    if c, n: nat :| Meets(cfg.codes, c, n) && n != 1 {
      var bs, acts := MeetingIsProcessed(cfg, c, n);
      assert ProcessedInFromCodePage(cfg, bs, acts, n + 1);
    }
  }

  // ---------------------------------------------------------------- examples

  const SPACED: Bytes := "a b"
  const ONCE: Bytes := "a+b"
  const TWICE: Bytes := "a%2Bb"

  lemma EscapeFirst(c: Octet, rest: Bytes)
    ensures Escape([c] + rest) == EscapeOctet(c) + Escape(rest)
  {
    assert ([c] + rest)[1..] == rest;
  }

  lemma EscapedTwice()
    ensures Escape(SPACED) == ONCE && Escape(ONCE) == TWICE
  {
    EscapeFirst('b', "");
    EscapeFirst(' ', "b");
    EscapeFirst('+', "b");
    EscapeFirst('a', " b");
    EscapeFirst('a', "+b");
    assert ['b'] + "" == "b" && [' '] + "b" == " b" && ['+'] + "b" == "+b";
    assert ['a'] + " b" == SPACED && ['a'] + "+b" == ONCE;
    assert EscapeOctet('+') == "%2B";
  }

  /** With these two codes the form page of the first cannot be submitted, but the code page behind it can. */
  lemma LateMeeting()
    ensures Meets({SPACED, TWICE}, SPACED, 2) && !MeetsAtOnce({SPACED, TWICE})
  {
    hide Escape;
    EscapedTwice();
    assert EscapeTimes(1, SPACED) == EscapeTimes(0, ONCE) == ONCE;
    assert EscapeTimes(2, SPACED) == EscapeTimes(1, ONCE) == EscapeTimes(0, TWICE) == TWICE;
    assert ONCE[1] != SPACED[1] && |ONCE| != |TWICE|;
    assert Meets({SPACED, TWICE}, SPACED, 2);
  }

  /** A code with a space opens the form, and the form never stores anything, however often it is submitted. */
  lemma CodeWithSpaceFails(cfg: FormConfig, bs: seq<Browser>, acts: seq<Action>)
    requires cfg.codes == {SPACED} && Run(cfg, bs, acts)
    requires |acts| >= 2 && acts[0].Visit? && acts[1].Post? && acts[1].page == 0
    requires acts[0].env.execution == Completes && acts[1].entry.typed == SPACED
    requires IsAllowed(cfg, RequestOf(bs[0], acts[0]), acts[0].env)
    requires IsAllowed(cfg, RequestOf(bs[1], acts[1]), acts[1].env)
    ensures EffectOf(cfg, bs[1], acts[1]).view == ViewForm
    ensures forall i | 0 <= i < |acts| :: !Stores(cfg, bs[i], acts[i])
  {
    hide Handle, Step, Stores, RequestOf, IsAllowed, MeetsNothing;
    CodeOpensFirst(cfg, bs, acts);
    assert !Unreserved(SPACED[1]);
    SingleCode(SPACED);
    forall i: nat | i < |acts| ensures !Stores(cfg, bs[i], acts[i]) {
      NothingIsStored(cfg, bs, acts, i);
    }
  }
}
