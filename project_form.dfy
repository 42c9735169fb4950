/** The project-creation form: the data it holds, the edits and submissions
    that change it, and the payload a submission sends.

    The form's state is four pieces of React state: formData, isSubmitting,
    error and message. The class FormController keeps them as fields and has
    one method per handler; the asynchronous submit handler is split at the
    await of its fetch into BeginSubmit (up to the request) and Settle (the
    response, with both reads of its body folded into an Outcome). The
    functions Step and Run state the same transitions on values, so that
    properties of whole sequences of events can be proved as lemmas. */
module ProjectForm {
  import opened Tokenizer

  datatype Option<T> = None | Some(value: T)

  /** The names of the form's four inputs. */
  datatype Field = Title | Description | Technologies | Category

  datatype FormData = FormData(title: string, description: string, technologies: string, category: string)
  {
    function Get(name: Field): string {
      match name
      case Title => title
      case Description => description
      case Technologies => technologies
      case Category => category
    }

    /** The object { ...this, [name]: value }. */
    function With(name: Field, value: string): (f: FormData)
      ensures f.Get(name) == value
      ensures forall other :: other != name ==> f.Get(other) == Get(other)
    {
      match name
      case Title => this.(title := value)
      case Description => this.(description := value)
      case Technologies => this.(technologies := value)
      case Category => this.(category := value)
    }
  }

  const DefaultCategory: string := "Web Development"

  /** The form's initial contents, which a successful submission restores. */
  const DefaultForm: FormData := FormData("", "", "", DefaultCategory)

  /** The body of the creation request. */
  datatype Payload = Payload(title: string, description: string, category: string, technologies: seq<string>)

  /** The request body built from the form: title, description and category
      forwarded as they are, technologies split into tokens. */
  function BuildPayload(f: FormData): (p: Payload)
    ensures p.title == f.title && p.description == f.description && p.category == f.category
    ensures p.technologies == Tokens(f.technologies)
    ensures forall t :: t in p.technologies ==> IsToken(t)
  {
    TokensAreTokens(f.technologies);
    Payload(f.title, f.description, f.category, Tokens(f.technologies))
  }

  /** How the creation request settles, in place of fetch and response.json():
      Created carries the title of the created project (the parsed body of an
      ok response); HttpError the JSON text of the body of a response that is
      not ok; Fault the message of any exception thrown on the way (a network
      failure, a body that is not JSON). */
  datatype Outcome = Created(title: string) | HttpError(detail: string) | Fault(message: string)

  const UnknownError: string := "An unknown error occurred during submission."

  /** The success text; the created project's title sits between the quotes. */
  function SuccessMessage(title: string): (m: string)
    ensures |m| == |title| + 30
    ensures m[..9] == "Project \"" && m[9..9 + |title|] == title
    ensures m[9 + |title|..] == "\" added successfully!"
  {
    "Project \"" + title + "\" added successfully!"
  }

  /** The text the catch block stores as the error: the exception's message,
      or a fixed text when that message is empty. It is never empty. */
  function FailureText(o: Outcome): (e: string)
    requires !o.Created?
    ensures e != []
    ensures o.HttpError? ==> |e| >= 19 && e[..19] == "Submission failed: " && e[19..] == o.detail
    ensures o.Fault? ==> e == (if o.message == [] then UnknownError else o.message)
  {
    match o
    case HttpError(detail) => "Submission failed: " + detail
    case Fault(m) => if m == [] then UnknownError else m
  }

  // ---------------------------------------------------------------------------
  // The state machine on values
  // ---------------------------------------------------------------------------

  /** Everything the form holds, plus the number of times it has called
      onProjectAdded. */
  datatype FormState = FormState(form: FormData, isSubmitting: bool, error: Option<string>,
                                 message: string, projectsAdded: nat)

  const Initial: FormState := FormState(DefaultForm, false, None, "", 0)

  /** What happens to the form: an input changes, a submission begins, or
      the pending request settles. */
  datatype Event = Edit(name: Field, value: string) | Submit | Response(outcome: Outcome)

  /** One event. Only a successful response calls onProjectAdded; the form is
      submitting after a Submit, not after a Response, and an Edit keeps it as
      it was. */
  function Step(s: FormState, e: Event): (t: FormState)
    ensures t.projectsAdded == s.projectsAdded + (if IsSuccess(e) then 1 else 0)
    ensures t.isSubmitting <==> e.Submit? || (e.Edit? && s.isSubmitting)
  {
    match e
    case Edit(name, value) => s.(form := s.form.With(name, value))
    case Submit => s.(isSubmitting := true, error := None, message := "")
    case Response(o) =>
      if o.Created? then
        s.(message := SuccessMessage(o.title), projectsAdded := s.projectsAdded + 1,
           form := DefaultForm, isSubmitting := false)
      else
        s.(error := Some(FailureText(o)), isSubmitting := false)
  }

  /** The state after the events evs, in order, starting from s. */
  function Run(s: FormState, evs: seq<Event>): (t: FormState)
    ensures t.projectsAdded >= s.projectsAdded
    ensures evs != [] && evs[|evs| - 1].Response? ==> !t.isSubmitting
    decreases |evs|
  {
    if evs == [] then s else Step(Run(s, evs[..|evs| - 1]), evs[|evs| - 1])
  }

  predicate IsSuccess(e: Event) {
    e.Response? && e.outcome.Created?
  }

  /** The number of successful responses among evs. */
  function Successes(evs: seq<Event>): nat
    decreases |evs|
  {
    if evs == [] then 0
    else Successes(evs[..|evs| - 1]) + (if IsSuccess(evs[|evs| - 1]) then 1 else 0)
  }

  /** An edit sets exactly the named input and touches nothing else; in
      particular it does not clear the error or the message. */
  lemma EditSetsOneField(s: FormState, name: Field, value: string)
    ensures var t := Step(s, Edit(name, value));
      t.form.Get(name) == value
      && (forall other :: other != name ==> t.form.Get(other) == s.form.Get(other))
      && t.isSubmitting == s.isSubmitting && t.error == s.error
      && t.message == s.message && t.projectsAdded == s.projectsAdded
  {
  }

  /** Beginning a submission marks the form as submitting, clears both kinds of
      feedback and leaves the inputs alone. */
  lemma SubmitBegins(s: FormState)
    ensures var t := Step(s, Submit);
      t.isSubmitting && t.error == None && t.message == ""
      && t.form == s.form && t.projectsAdded == s.projectsAdded
  {
  }

  /** A submission that succeeds reports the new project's title, calls
      onProjectAdded once, resets the inputs and shows no error. */
  lemma SubmitSucceeds(s: FormState, title: string)
    ensures var t := Run(s, [Submit, Response(Created(title))]);
      !t.isSubmitting && t.message == SuccessMessage(title) && t.error == None
      && t.form == DefaultForm && t.projectsAdded == s.projectsAdded + 1
  {
    assert [Submit, Response(Created(title))][..1] == [Submit];
    assert [Submit][..0] == [];
  }

  /** A submission that fails shows the failure text, keeps the inputs, shows
      no success message and does not call onProjectAdded. */
  lemma SubmitFails(s: FormState, o: Outcome)
    requires !o.Created?
    ensures var t := Run(s, [Submit, Response(o)]);
      !t.isSubmitting && t.error == Some(FailureText(o)) && t.message == ""
      && t.form == s.form && t.projectsAdded == s.projectsAdded
  {
    assert [Submit, Response(o)][..1] == [Submit];
    assert [Submit][..0] == [];
  }

  /** onProjectAdded is called once per successful response and at no other
      time. */
  lemma {:induction false} CallbackOncePerSuccess(s: FormState, evs: seq<Event>)
    ensures Run(s, evs).projectsAdded == s.projectsAdded + Successes(evs)
    decreases |evs|
  {
    if evs != [] {
      CallbackOncePerSuccess(s, evs[..|evs| - 1]);
    }
  }

  /** Once a response has arrived, the form stays out of the submitting state
      until the next submission begins. */
  lemma {:induction false} SettledUntilNextSubmit(s: FormState, evs: seq<Event>, k: nat)
    requires k < |evs| && evs[k].Response?
    requires forall j :: k < j < |evs| ==> !evs[j].Submit?
    ensures !Run(s, evs).isSubmitting
    decreases |evs|
  {
    if k < |evs| - 1 {
      var prefix := evs[..|evs| - 1];
      assert prefix[k] == evs[k];
      SettledUntilNextSubmit(s, prefix, k);
    }
  }

  /** Without edits and without a successful response, the inputs keep what
      they held: failures and pending submissions never discard them. */
  lemma {:induction false} FormKeptWithoutSuccess(s: FormState, evs: seq<Event>)
    requires forall j :: 0 <= j < |evs| ==> !evs[j].Edit? && !IsSuccess(evs[j])
    ensures Run(s, evs).form == s.form
    decreases |evs|
  {
    if evs != [] {
      FormKeptWithoutSuccess(s, evs[..|evs| - 1]);
    }
  }

  /** A shown error is never the empty string. */
  predicate ErrorNonEmpty(s: FormState) {
    s.error != Some([])
  }

  lemma {:induction false} ErrorStaysNonEmpty(s: FormState, evs: seq<Event>)
    requires ErrorNonEmpty(s)
    ensures ErrorNonEmpty(Run(s, evs))
    decreases |evs|
  {
    if evs != [] {
      ErrorStaysNonEmpty(s, evs[..|evs| - 1]);
    }
  }

  /** At most one kind of feedback is on show: an error and a success message
      never appear together. */
  predicate OneFeedback(s: FormState) {
    s.error == None || s.message == ""
  }

  /** The runs the rendered form allows: a response arrives only while its
      submission is pending (the submit button is disabled meanwhile, so there
      is at most one request in flight). */
  predicate InFlightOnly(s: FormState, evs: seq<Event>)
    decreases |evs|
  {
    evs == []
    || (InFlightOnly(s, evs[..|evs| - 1])
        && (evs[|evs| - 1].Response? ==> Run(s, evs[..|evs| - 1]).isSubmitting))
  }

  /** In such a run an error and a success message are never shown together:
      every response follows a submission that cleared both. */
  lemma {:induction false} FeedbackExclusive(s: FormState, evs: seq<Event>)
    requires OneFeedback(s) && (s.isSubmitting ==> s.error == None && s.message == "")
    requires InFlightOnly(s, evs)
    ensures var t := Run(s, evs);
      OneFeedback(t) && (t.isSubmitting ==> t.error == None && t.message == "")
    decreases |evs|
  {
    if evs != [] {
      FeedbackExclusive(s, evs[..|evs| - 1]);
    }
  }

  /** The component's start state: the inputs hold their defaults (an empty
      title, description and technologies string, category "Web Development"),
      nothing is submitting and no feedback is shown, so it meets the premises
      of ErrorStaysNonEmpty and FeedbackExclusive. On every run the rendered
      form allows, the error is never empty and never shown beside a success
      message. */
  lemma {:induction false} ReachableFeedback(evs: seq<Event>)
    requires InFlightOnly(Initial, evs)
    ensures forall f :: Initial.form.Get(f) == (if f == Category then "Web Development" else "")
    ensures !Initial.isSubmitting && Initial.error == None && Initial.message == ""
    ensures ErrorNonEmpty(Run(Initial, evs)) && OneFeedback(Run(Initial, evs))
  {
    ErrorStaysNonEmpty(Initial, evs);
    FeedbackExclusive(Initial, evs);
  }

  /** A worked example: title "Proxy Cache", description "LRU proxy" and
      technologies "Go, Redis" are sent with the tokens ["Go", "Redis"]. */
  const ProxyCache: FormData := FormData("Proxy Cache", "LRU proxy", "Go, Redis", DefaultCategory)

  lemma ProxyCachePayload()
    ensures BuildPayload(ProxyCache) == Payload("Proxy Cache", "LRU proxy", DefaultCategory, ["Go", "Redis"])
  {
    GoRedis();
  }

  lemma GoRedis()
    ensures Tokens("Go, Redis") == ["Go", "Redis"]
  {
    assert "Go, Redis" == "Go" + [Comma] + " Redis";
    TokensComma("Go", " Redis");
    TokensGo();
    TokensRedis();
    AppendPair(Tokens("Go"), Tokens(" Redis"), "Go", "Redis");
  }

  lemma TokensGo()
    ensures Tokens("Go") == ["Go"]
  {
    var p := "Go";
    assert p[0..2] == p;
    assert AllSpace(p[..0]) && AllSpace(p[2..]);
    TrimmedPiece(p, 0, 2);
  }

  lemma TokensRedis()
    ensures Tokens(" Redis") == ["Redis"]
  {
    var p := " Redis";
    assert p[1..6] == "Redis";
    assert AllSpace(p[..1]) && AllSpace(p[6..]);
    TrimmedPiece(p, 1, 6);
  }

  // ---------------------------------------------------------------------------
  // The component, with its state in fields
  // ---------------------------------------------------------------------------

  /** The ProjectForm component. Its fields are the component's state hooks;
      projectsAdded counts the calls of the onProjectAdded callback. */
  class FormController {
    var formData: FormData
    var isSubmitting: bool
    var error: Option<string>
    var message: string
    var projectsAdded: nat

    function State(): FormState
      reads this
    {
      FormState(formData, isSubmitting, error, message, projectsAdded)
    }

    /** The state hooks' initial values. */
    constructor ()
      ensures State() == Initial
    {
      formData := DefaultForm;
      isSubmitting := false;
      error := None;
      message := "";
      projectsAdded := 0;
    }

    /** handleChange: the input called name now holds value. */
    method HandleChange(name: Field, value: string)
      modifies this
      ensures formData.Get(name) == value
      ensures forall other :: other != name ==> formData.Get(other) == old(formData).Get(other)
      ensures isSubmitting == old(isSubmitting) && error == old(error) && message == old(message)
      ensures projectsAdded == old(projectsAdded)
      ensures State() == Step(old(State()), Edit(name, value))
    {
      formData := formData.With(name, value);
    }

    /** handleSubmit up to the request: enter the submitting state, clear the
        feedback and build the request body from the inputs. */
    method BeginSubmit() returns (payload: Payload)
      modifies this
      ensures isSubmitting && error == None && message == ""
      ensures formData == old(formData) && projectsAdded == old(projectsAdded)
      ensures payload == BuildPayload(formData)
      ensures State() == Step(old(State()), Submit)
    {
      isSubmitting := true;
      error := None;
      message := "";
      payload := BuildPayload(formData);
    }

    /** handleSubmit from the response on: on success report the title, call
        onProjectAdded and reset the inputs; on failure store the error text
        and keep the inputs; in both cases leave the submitting state. */
    method Settle(outcome: Outcome)
      modifies this
      ensures !isSubmitting
      ensures outcome.Created? ==>
        message == SuccessMessage(outcome.title) && formData == DefaultForm
        && projectsAdded == old(projectsAdded) + 1 && error == old(error)
      ensures !outcome.Created? ==>
        error == Some(FailureText(outcome)) && formData == old(formData)
        && projectsAdded == old(projectsAdded) && message == old(message)
      ensures State() == Step(old(State()), Response(outcome))
    {
      if outcome.Created? {
        message := SuccessMessage(outcome.title);
        projectsAdded := projectsAdded + 1;
        formData := DefaultForm;
      } else {
        error := Some(FailureText(outcome));
      }
      isSubmitting := false;
    }

    /** The whole of handleSubmit for one outcome of the request. */
    method HandleSubmit(outcome: Outcome) returns (payload: Payload)
      modifies this
      ensures payload == BuildPayload(old(formData))
      ensures !isSubmitting
      ensures outcome.Created? ==>
        message == SuccessMessage(outcome.title) && error == None && formData == DefaultForm
        && projectsAdded == old(projectsAdded) + 1
      ensures !outcome.Created? ==>
        error == Some(FailureText(outcome)) && message == "" && formData == old(formData)
        && projectsAdded == old(projectsAdded)
      ensures State() == Run(old(State()), [Submit, Response(outcome)])
    {
      payload := BeginSubmit();
      Settle(outcome);
      assert [Submit, Response(outcome)][..1] == [Submit];
      assert [Submit][..0] == [];
    }
  }
}
