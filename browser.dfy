/** The part of the `mechanize` browser the client drives: the last response,
    the selected form and its controls, and every request sent. The server is
    a fixed function from request to response; the request log records what
    was opened and what was submitted, in order. */
module Browser {
  import opened Strings
  import opened Values

  /** A form control's value: a text control holds a string, a list control
      (select, checkbox) a list of selected item names. */
  datatype Control = Text(s: string) | Choice(items: seq<string>)

  /** Python truthiness of a control's value. */
  predicate ControlTruthy(c: Control) {
    match c
    case Text(s) => s != ""
    case Choice(items) => items != []
  }

  /** A form of a page: its method is POST or not, its action URL, its controls. */
  datatype HtmlForm = HtmlForm(post: bool, action: string, controls: map<string, Control>)

  /** What the browser sends: a page fetch, a POST of url-encoded data, or
      the submission of the selected form through the named button. */
  datatype Request =
    | Get(path: string, query: map<string, string>)
    | Post(path: string, data: map<string, Scalar>)
    | Submission(action: string, button: string, fields: map<string, Control>)

  /** What comes back: the final URL, the HTTP status, the body, the body as
      JSON (`None` when it is not JSON) and the page's forms. */
  datatype Response = Response(url: string, status: int, body: string, json: Option<Json>, forms: seq<HtmlForm>)

  /** The browser's state as a value. */
  datatype Session = Session(response: Response, form: Option<HtmlForm>, log: seq<Request>)

  /** The state after an operation and what the operation returned or raised. */
  datatype Step<T> = Step(st: Session, out: Outcome<T>)

  /** urllib raises `HTTPError` for any final status outside 2xx. */
  predicate HttpOk(status: int) {
    200 <= status < 300
  }

  /** `b.open(...)`: the request is sent and its response becomes current,
      with no form selected; an error status raises after that. */
  function Fetch(st: Session, server: Request -> Response, req: Request): Step<()> {
    var resp := server(req);
    var st' := Session(resp, None, st.log + [req]);
    if HttpOk(resp.status) then Step(st', Ok(())) else Step(st', Raised(HttpError(resp.status)))
  }

  /** The form `_select_form(action)` picks: the first POST form whose action
      contains `action`. */
  function FirstPostForm(forms: seq<HtmlForm>, action: string): (r: Option<nat>)
    ensures r.Some? ==> r.value < |forms| && forms[r.value].post && Contains(forms[r.value].action, action)
    ensures r.Some? ==> forall i :: 0 <= i < r.value ==> !(forms[i].post && Contains(forms[i].action, action))
    ensures r.None? ==> forall i :: 0 <= i < |forms| ==> !(forms[i].post && Contains(forms[i].action, action))
    decreases |forms|
  {
    if forms == [] then None
    else if forms[0].post && Contains(forms[0].action, action) then Some(0)
    else match FirstPostForm(forms[1..], action)
      case None => None
      case Some(i) => Some(i + 1)
  }

  /** `_select_form(action)`: select that form, or raise when there is none. */
  function Selected(st: Session, action: string): Step<()> {
    match FirstPostForm(st.response.forms, action)
    case None => Step(st, Raised(FormNotFound(action)))
    case Some(i) => Step(st.(form := Some(st.response.forms[i])), Ok(()))
  }

  /** `b[key]`: the value of a control of the selected form. */
  function Read(st: Session, key: string): Outcome<Control> {
    match st.form
    case None => Raised(NoFormSelected)
    case Some(f) => if key in f.controls then Ok(f.controls[key]) else Raised(ControlNotFound(key))
  }

  /** `b[key] = v`: a string goes to a text control and a list to a list
      control; anything else raises and changes nothing. */
  function Write(st: Session, key: string, v: Control): Step<()> {
    match st.form
    case None => Step(st, Raised(NoFormSelected))
    case Some(f) =>
      if key !in f.controls then Step(st, Raised(ControlNotFound(key)))
      else if f.controls[key].Text? != v.Text? then Step(st, Raised(ControlTypeMismatch(key)))
      else Step(st.(form := Some(f.(controls := f.controls[key := v]))), Ok(()))
  }

  /** `b.submit(name=button)`: the selected form's controls are sent to its
      action and the reply handled as `open` handles it. */
  function Submitted(st: Session, server: Request -> Response, button: string): Step<()> {
    match st.form
    case None => Step(st, Raised(NoFormSelected))
    case Some(f) => Fetch(st, server, Submission(f.action, button, f.controls))
  }

  /** The requests sent since `before`: the log only ever grows. */
  predicate Sent(before: Session, after: Session, reqs: seq<Request>) {
    after.log == before.log + reqs
  }

  /** A write that succeeds changes that one control and nothing else. */
  lemma WriteChangesOne(st: Session, key: string, v: Control)
    requires Write(st, key, v).out.Ok?
    ensures var st' := Write(st, key, v).st;
      st.form.Some? && st'.form.Some? && st'.response == st.response && st'.log == st.log
      && st'.form.value.action == st.form.value.action
      && st'.form.value.controls == st.form.value.controls[key := v]
      && Read(st', key) == Ok(v)
  {
  }

  /** A write that fails, or a read, changes nothing. */
  lemma WriteFailsCleanly(st: Session, key: string, v: Control)
    requires Write(st, key, v).out.Raised?
    ensures Write(st, key, v).st == st
    ensures st.form.Some? && key in st.form.value.controls ==>
      Write(st, key, v).out == Raised(ControlTypeMismatch(key)) && st.form.value.controls[key].Text? != v.Text?
  {
  }

  /** A fetch or submission sends exactly one request and leaves no form selected. */
  lemma SubmitSendsOne(st: Session, server: Request -> Response, button: string)
    requires st.form.Some?
    ensures var s := Submitted(st, server, button);
      Sent(st, s.st, [Submission(st.form.value.action, button, st.form.value.controls)])
      && s.st.form.None? && s.st.response == server(s.st.log[|s.st.log| - 1])
      && (s.out.Ok? <==> HttpOk(s.st.response.status))
  {
  }

  /** The recorded browser. */
  class Browser {
    const server: Request -> Response
    var response: Response
    var form: Option<HtmlForm>
    var log: seq<Request>

    function State(): Session
      reads this
    {
      Session(response, form, log)
    }

    /** A browser on its first page, nothing sent yet. */
    constructor (server: Request -> Response, start: Response)
      ensures this.server == server && State() == Session(start, None, [])
    {
      this.server := server;
      response := start;
      form := None;
      log := [];
    }

    method Open(req: Request) returns (r: Outcome<()>)
      modifies this
      ensures Step(State(), r) == Fetch(old(State()), server, req)
    {
      response := server(req);
      form := None;
      log := log + [req];
      if HttpOk(response.status) {
        r := Ok(());
      } else {
        r := Raised(HttpError(response.status));
      }
    }

    /** `select_form(predicate=...)` tries the page's forms in order. */
    method SelectForm(action: string) returns (r: Outcome<()>)
      modifies this
      ensures Step(State(), r) == Selected(old(State()), action)
    {
      var forms := response.forms;
      var i := 0;
      while i < |forms|
        invariant 0 <= i <= |forms|
        invariant forall j :: 0 <= j < i ==> !(forms[j].post && Contains(forms[j].action, action))
      {
        if forms[i].post && Contains(forms[i].action, action) {
          form := Some(forms[i]);
          r := Ok(());
          return;
        }
        i := i + 1;
      }
      r := Raised(FormNotFound(action));
    }

    method Get(key: string) returns (r: Outcome<Control>)
      ensures r == Read(State(), key)
    {
      match form {
      case None => r := Raised(NoFormSelected);
      case Some(f) =>
        if key in f.controls {
          r := Ok(f.controls[key]);
        } else {
          r := Raised(ControlNotFound(key));
        }
      }
    }

    method Set(key: string, v: Control) returns (r: Outcome<()>)
      modifies this
      ensures Step(State(), r) == Write(old(State()), key, v)
    {
      match form {
      case None => r := Raised(NoFormSelected);
      case Some(f) =>
        if key !in f.controls {
          r := Raised(ControlNotFound(key));
        } else if f.controls[key].Text? != v.Text? {
          r := Raised(ControlTypeMismatch(key));
        } else {
          form := Some(f.(controls := f.controls[key := v]));
          r := Ok(());
        }
      }
    }

    method Submit(button: string) returns (r: Outcome<()>)
      modifies this
      ensures Step(State(), r) == Submitted(old(State()), server, button)
    {
      match form {
      case None => r := Raised(NoFormSelected);
      case Some(f) => r := Open(Submission(f.action, button, f.controls));
      }
    }
  }
}
