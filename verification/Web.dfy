/**
 The request object of the form handler: flash messages, template state, the lazily
 parsed session with its in-place updates, the XSRF token and the rendered response.
 */
module Web {
  import opened Wrappers
  import opened QueryEncoding
  import opened FormValues
  import opened Html
  import opened Session
  import opened Utils
  import opened Schema

  const FORM_XSRF: Bytes := "_xsrf"

  datatype Method = GET | POST | PUT | PATCH | OTHER

  /** The request as net/http presents it. Only POST, PUT and PATCH have a parsed body. */
  datatype Http = Http(
    verb: Method,
    body: Values,
    query: Values,
    headers: Values,
    cookie: Option<Bytes>,
    credentials: Option<Credentials>
  ) {
    function PostForm(): Values {
      if verb == POST || verb == PUT || verb == PATCH then body else map[]
    }

    /** Body values first, then those of the URL. */
    function FormValuesOf(name: Bytes): seq<Bytes> {
      All(PostForm(), name) + All(query, name)
    }

    function FormValue(name: Bytes): Bytes {
      if FormValuesOf(name) == [] then [] else FormValuesOf(name)[0]
    }

    predicate TokensMatch() {
      cookie.Some? && cookie.value == FormValue(FORM_XSRF) && FormValue(FORM_XSRF) != []
    }

    predicate XsrfVerified() {
      verb != POST || TokensMatch()
    }
  }

  datatype Text =
    | XsrfFailed
    | InvalidCode
    | DefaultsFailed(reason: Bytes)
    | InvalidCaptcha
    | Invalid(error: Error)
    | StoreFailed

  /** An error message; the name is empty for messages about the whole form. */
  datatype FlashMessage = FlashMessage(name: Bytes, text: Text)

  datatype DefaultValue = One(value: Bytes) | Chosen(values: set<Bytes>)

  datatype StateValue =
    | FormDefinition
    | Description(text: Bytes)
    | Defaults(values: map<Bytes, DefaultValue>)
    | Code(code: Bytes)
    | Result(record: map<Bytes, Value>, failed: bool)

  type State = map<string, StateValue>

  datatype View = ViewForm | ViewSuccess | ViewFail | ViewCode | ViewForbidden

  /** Whether the view holds a form that posts back the token and the session. */
  predicate HasPostForm(view: View, codeAccess: bool) {
    match view
    case ViewForm => true
    case ViewCode => true
    case ViewSuccess => codeAccess
    case ViewFail => codeAccess
    case ViewForbidden => false
  }

  /** Template execution either completes or fails, before or after the token was embedded. */
  datatype Execution = Completes | FailsBeforeToken | FailsAfterToken

  /** What the browser gets: nothing when the template failed. The inputs are the text of the hidden inputs. */
  datatype Page = Blank | Page(view: View, xsrfInput: Bytes, sessionInputs: Bytes)

  datatype Response = Response(status: nat, page: Page)

  const INTERNAL_ERROR: nat := 500

  function SessionOrEmpty(session: Option<SessionMap>): SessionMap {
    session.GetOr(map[])
  }

  /** The pages that rendering may write; only the order of the hidden inputs is left open. */
  ghost predicate Renders(view: View, codeAccess: bool, session: Option<SessionMap>,
                          token: Bytes, execution: Execution, page: Page) {
    if execution != Completes then page == Blank
    else if !HasPostForm(view, codeAccess) then page == Page(view, [], [])
    else
      && page.Page? && page.view == view
      && page.xsrfInput == HiddenInput(FORM_XSRF, token)
      && Embeds(page.sessionInputs, SessionOrEmpty(session))
  }

  /** Exactly one response was written, with the status unless the template failed. */
  ghost predicate Answers(before: seq<Response>, written: seq<Response>, status: nat, view: View, codeAccess: bool,
                          session: Option<SessionMap>, token: Bytes, execution: Execution) {
    && |written| == |before| + 1 && written[..|before|] == before
    && written[|before|].status == (if execution == Completes then status else INTERNAL_ERROR)
    && Renders(view, codeAccess, session, token, execution, written[|before|].page)
  }

  /** Whether executing the view reaches the place where the token is drawn and the cookie set. */
  predicate SetsCookie(view: View, codeAccess: bool, execution: Execution) {
    HasPostForm(view, codeAccess) && execution != FailsBeforeToken
  }

  class Request {
    const http: Http
    /** What each configured captcha says about this request. */
    const captchas: seq<bool>
    var messages: seq<FlashMessage>
    var xsrf: Bytes
    var session: Option<SessionMap>
    var state: State
    /** The response: the cookie set on it and what was written to it. */
    var setCookie: Option<Bytes>
    var written: seq<Response>

    constructor (http: Http, captchas: seq<bool>)
      ensures this.http == http && this.captchas == captchas
      ensures messages == [] && xsrf == [] && session == None && state == map[]
      ensures setCookie == None && written == []
    {
      this.http, this.captchas := http, captchas;
      messages, xsrf, session, state := [], [], None, map[];
      setCookie, written := None, [];
    }

    /** The session after it has been looked at: parsed from the body on first use. */
    ghost function Parsed(): SessionMap
      reads this
    {
      session.GetOr(SessionOf(http.PostForm()))
    }

    method VerifyCaptcha() returns (ok: bool)
      ensures ok <==> (http.verb == POST ==> forall i | 0 <= i < |captchas| :: captchas[i])
    {
      if http.verb != POST {
        return true;
      }
      for i := 0 to |captchas|
        invariant forall j | 0 <= j < i :: captchas[j]
      {
        if !captchas[i] {
          return false;
        }
      }
      return true;
    }

    method VerifyXSRF() returns (ok: bool)
      ensures ok == http.XsrfVerified()
    {
      if http.verb != POST {
        return true;
      }
      if http.cookie == None {
        return false;
      }
      var formValue := http.FormValue(FORM_XSRF);
      return http.cookie.value == formValue && formValue != [];
    }

    method ParseSession() returns (parsed: SessionMap)
      ensures parsed == SessionOf(http.PostForm())
    {
      var form := http.PostForm();
      var remaining := form.Keys;
      parsed := map[];
      while remaining != {}
        invariant remaining <= form.Keys
        invariant forall k :: k in parsed <==> PREFIX + k in form.Keys - remaining
        invariant forall k | k in parsed :: parsed[k] == Get(form, PREFIX + k)
        decreases remaining
      {
        var name :| name in remaining;
        remaining := remaining - {name};
        if PREFIX <= name {
          parsed := parsed[name[2..] := Get(form, name)];
          assert PREFIX + name[2..] == name;
        }
        forall k ensures k in parsed <==> PREFIX + k in form.Keys - remaining {
          assert (PREFIX + k)[2..] == k;
        }
      }
      forall k ensures k in parsed <==> k in SessionOf(form) {
        SessionKey(form, k);
      }
    }

    method Session() returns (values: SessionMap)
      modifies this`session
      ensures values == old(Parsed())
      ensures session == Some(values)
    {
      if session == None {
        var parsed := ParseSession();
        session := Some(parsed);
      }
      return session.value;
    }

    /** Reads the raw map: a session that was not parsed yet has nothing to pop and stays unparsed. */
    method Pop(key: Bytes) returns (value: Bytes)
      modifies this`session
      ensures value == ValueAt(SessionOrEmpty(old(session)), key)
      ensures session == if old(session).Some? then Some(old(session).value - {key}) else None
    {
      if session == None {
        return [];
      }
      value := ValueAt(session.value, key);
      session := Some(session.value - {key});
    }

    method Push(key: Bytes, value: Bytes)
      modifies this`session
      ensures session == Some(old(Parsed())[key := value])
    {
      var values := Session();
      session := Some(values[key := value]);
    }

    method Set(key: string, value: StateValue)
      modifies this`state
      ensures state == old(state)[key := value]
    {
      state := state[key := value];
    }

    method Flash(name: Bytes, text: Text)
      modifies this`messages
      ensures messages == old(messages) + [FlashMessage(name, text)]
    {
      messages := messages + [FlashMessage(name, text)];
    }

    method EmbedXSRF(token: Bytes) returns (html: Bytes)
      modifies this`xsrf, this`setCookie
      ensures xsrf == if old(xsrf) == [] then token else old(xsrf)
      ensures setCookie == if old(xsrf) == [] then Some(token) else old(setCookie)
      ensures html == HiddenInput(FORM_XSRF, xsrf)
    {
      if xsrf == [] {
        xsrf := token;
        setCookie := Some(token);
      }
      html := HiddenInput(FORM_XSRF, xsrf);
    }

    method EmbedSession() returns (html: Bytes)
      ensures Embeds(html, SessionOrEmpty(session))
    {
      var values := SessionOrEmpty(session);
      var remaining := values.Keys;
      html := [];
      ghost var order: seq<Bytes> := [];
      while remaining != {}
        invariant remaining <= values.Keys
        invariant Ordering(order, values.Keys - remaining)
        invariant html == HiddenInputs(SessionPairs(order, values))
        decreases remaining
      {
        var k :| k in remaining;
        remaining := remaining - {k};
        html := html + HiddenInput(PREFIX + Escape(k), Escape(values[k]));
        order := order + [k];
        assert SessionPairs(order, values)[..|order| - 1] == SessionPairs(order[..|order| - 1], values);
        assert order[..|order| - 1] + [k] == order;
      }
      assert Ordering(order, values.Keys);
    }

    method Render(status: nat, view: View, codeAccess: bool, token: Bytes, execution: Execution)
      modifies this`xsrf, this`setCookie, this`written
      ensures xsrf == if SetsCookie(view, codeAccess, execution) && old(xsrf) == [] then token else old(xsrf)
      ensures setCookie
         == if SetsCookie(view, codeAccess, execution) && old(xsrf) == [] then Some(token) else old(setCookie)
      ensures Answers(old(written), written, status, view, codeAccess, session, xsrf, execution)
    {
      var page := Page(view, [], []);
      if SetsCookie(view, codeAccess, execution) {
        var xsrfInput := EmbedXSRF(token);
        var sessionInputs := EmbedSession();
        page := Page(view, xsrfInput, sessionInputs);
      }
      if execution != Completes {
        page := Blank;
        written := written + [Response(INTERNAL_ERROR, page)];
      } else {
        written := written + [Response(status, page)];
      }
      assert Renders(view, codeAccess, session, xsrf, execution, page);
    }
  }
}
