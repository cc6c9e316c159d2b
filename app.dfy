/**
 * The screen logic of App.tsx. Three state cells (`appState`, `result`, `error`) change in
 * `handleLogin`, `handleFormSubmit` and `resetApp`; which of these can be triggered depends on
 * the screen the cells render. The submit is split into its start (before the `await`) and its
 * completion (after it).
 */
module Screens {

  import opened Wrappers
  import opened Types
  import opened Request
  import opened Parser

  const ErrorMessage := "Ocorreu um erro ao analisar o im\U{00F3}vel. Verifique sua conex\U{00E3}o ou a chave de API."

  /** The values of the three state cells. */
  datatype Cells = Cells(appState: AppState, result: Option<AnalysisResponse>, error: Option<string>)

  const Initial := Cells(LOGIN, None, None)

  datatype Event =
    | Login
    | Submit
    | Completed(outcome: Result<AnalysisResponse, string>)
    | Reset

  /** The setter calls each handler makes. */
  function Next(c: Cells, e: Event): Cells {
    match e
    case Login => c.(appState := FORM)
    case Submit => c.(appState := LOADING, error := None)
    case Completed(Success(response)) => c.(appState := RESULT, result := Some(response))
    case Completed(Failure(_)) => c.(appState := ERROR, error := Some(ErrorMessage))
    case Reset => Cells(FORM, None, None)
  }

  /** What App renders below the header (the login screen replaces the whole page). */
  datatype View =
    | LoginView
    | FormView
    | LoadingView
    | ResultView(data: AnalysisResponse)
    | ErrorView(message: Option<string>)
    | NoView

  function ViewOf(c: Cells): View {
    match c.appState
    case LOGIN => LoginView
    case FORM => FormView
    case LOADING => LoadingView
    case RESULT => if c.result.Some? then ResultView(c.result.value) else NoView
    case ERROR => ErrorView(c.error)
  }

  /**
   * The events the rendered screen offers: login on the login screen, submit on the form,
   * reset on the result and error screens. The completion belongs to the analysis started by
   * the last submit and is pending exactly while the loading screen shows.
   */
  predicate Enabled(c: Cells, e: Event) {
    match e
    case Login => ViewOf(c) == LoginView
    case Submit => ViewOf(c) == FormView
    case Completed(_) => ViewOf(c) == LoadingView
    case Reset => ViewOf(c).ResultView? || ViewOf(c).ErrorView?
  }

  /** Each event is reachable in these states only, and in RESULT reset needs a result to show. */
  lemma EnabledStates(c: Cells, e: Event)
    ensures e.Login? ==> (Enabled(c, e) <==> c.appState == LOGIN)
    ensures e.Submit? ==> (Enabled(c, e) <==> c.appState == FORM)
    ensures e.Completed? ==> (Enabled(c, e) <==> c.appState == LOADING)
    ensures e.Reset? ==> (Enabled(c, e) <==> c.appState == ERROR || (c.appState == RESULT && c.result.Some?))
  {
  }

  /** The cells as the screens leave them: a result only on the result screen, an error only on the error screen. */
  predicate Inv(c: Cells) {
    match c.appState
    case LOGIN => c.result.None? && c.error.None?
    case FORM => c.result.None? && c.error.None?
    case LOADING => c.result.None? && c.error.None?
    case RESULT => c.result.Some? && c.error.None?
    case ERROR => c.result.None? && c.error == Some(ErrorMessage)
  }

  lemma InitialInv()
    ensures Inv(Initial)
  {
  }

  /** Every offered event keeps the invariant. */
  lemma NextInv(c: Cells, e: Event)
    requires Inv(c) && Enabled(c, e)
    ensures Inv(Next(c, e))
  {
  }

  /** The cells after the events `es`, or None if one of them is not offered when it comes. */
  function Run(c: Cells, es: seq<Event>): Option<Cells>
    decreases |es|
  {
    if es == [] then Some(c)
    else if !Enabled(c, es[0]) then None
    else Run(Next(c, es[0]), es[1..])
  }

  lemma {:induction false} RunInv(c: Cells, es: seq<Event>)
    requires Inv(c)
    ensures Run(c, es).Some? ==> Inv(Run(c, es).value)
    decreases |es|
  {
    if es != [] && Enabled(c, es[0]) {
      NextInv(c, es[0]);
      RunInv(Next(c, es[0]), es[1..]);
    }
  }

  /**
   * In every state the app can reach, the invariant holds, the result screen is shown whenever
   * the state is RESULT, and some event is offered.
   */
  lemma Reachable(es: seq<Event>)
    requires Run(Initial, es).Some?
    ensures var c := Run(Initial, es).value;
            Inv(c)
            && (c.appState == RESULT ==> ViewOf(c) == ResultView(c.result.value))
            && (exists e :: Enabled(c, e))
  {
    InitialInv();
    RunInv(Initial, es);
    var c := Run(Initial, es).value;
    match c.appState
    case LOGIN => assert Enabled(c, Login);
    case FORM => assert Enabled(c, Submit);
    case LOADING => assert Enabled(c, Completed(Failure("")));
    case RESULT => assert Enabled(c, Reset);
    case ERROR => assert Enabled(c, Reset);
  }

  /** A reset leads to the form with both cells cleared, from any state. */
  lemma ResetClears(c: Cells)
    ensures Next(c, Reset) == Cells(FORM, None, None) && ViewOf(Next(c, Reset)) == FormView
  {
  }

  /** Submitting again after an error shows the result of the new analysis, never the old error. */
  lemma RetryAfterError(response: AnalysisResponse)
    ensures Run(Initial, [Login, Submit, Completed(Failure("x")), Reset, Submit, Completed(Success(response))])
            == Some(Cells(RESULT, Some(response), None))
  {
    var es := [Login, Submit, Completed(Failure("x")), Reset, Submit, Completed(Success(response))];
    var cs := [Initial, Cells(FORM, None, None), Cells(LOADING, None, None), Cells(ERROR, None, Some(ErrorMessage)),
               Cells(FORM, None, None), Cells(LOADING, None, None), Cells(RESULT, Some(response), None)];
    assert Run(cs[6], es[6..]) == Some(cs[6]);
    assert Run(cs[5], es[5..]) == Run(cs[6], es[6..]);
    assert Run(cs[4], es[4..]) == Run(cs[5], es[5..]);
    assert Run(cs[3], es[3..]) == Run(cs[4], es[4..]);
    assert Run(cs[2], es[2..]) == Run(cs[3], es[3..]);
    assert Run(cs[1], es[1..]) == Run(cs[2], es[2..]);
    assert Run(cs[0], es) == Run(cs[1], es[1..]);
  }

  /** The App component: its three state cells and its handlers. */
  class App {
    var appState: AppState
    var result: Option<AnalysisResponse>
    var error: Option<string>

    function State(): Cells
      reads this
    {
      Cells(appState, result, error)
    }

    /** `useState(AppState.LOGIN)`, `useState(null)`, `useState(null)` */
    constructor()
      ensures State() == Initial
    {
      appState, result, error := LOGIN, None, None;
    }

    /** `handleLogin`: only the state changes. */
    method HandleLogin()
      modifies this
      ensures State() == Next(old(State()), Login)
      ensures Inv(old(State())) && Enabled(old(State()), Login) ==> Inv(State())
    {
      appState := FORM;
    }

    /** `handleFormSubmit` up to the `await`: loading, with the error cleared and the result kept. */
    method BeginSubmit()
      modifies this
      ensures State() == Next(old(State()), Submit)
      ensures Inv(old(State())) && Enabled(old(State()), Submit) ==> Inv(State())
    {
      appState := LOADING;
      error := None;
    }

    /** `handleFormSubmit` after the `await`: the response and RESULT, or the fixed message and ERROR. */
    method CompleteSubmit(outcome: Result<AnalysisResponse, string>)
      modifies this
      ensures State() == Next(old(State()), Completed(outcome))
      ensures Inv(old(State())) && Enabled(old(State()), Completed(outcome)) ==> Inv(State())
    {
      match outcome
      case Success(response) =>
        result := Some(response);
        appState := RESULT;
      case Failure(_) =>
        error := Some(ErrorMessage);
        appState := ERROR;
    }

    /** `handleFormSubmit`: both steps around the analysis of `data`. */
    method HandleFormSubmit(data: PropertyFormData, apiKey: Option<string>, service: ModelRequest -> CallOutcome,
                            parse: string -> Option<Json>)
      returns (outcome: Result<AnalysisResponse, string>)
      modifies this
      ensures State() == Next(Next(old(State()), Submit), Completed(outcome))
      ensures Inv(old(State())) && Enabled(old(State()), Submit) ==> Inv(State())
      ensures (apiKey.None? || apiKey.value == "") ==> outcome == Failure(MissingKeyMessage) && State().appState == ERROR
      ensures apiKey.Some? && apiKey.value != "" ==>
                match service(BuildRequest(data))
                case Threw(e) => outcome == Failure(e)
                case Replied(t) =>
                  if t.None? || t.value == "" then outcome == Failure(NoResponseMessage)
                  else outcome == Success(ParsedResponse(parse, t.value))
    {
      BeginSubmit();
      var sent;
      outcome, sent := AnalyzeProperty(data, apiKey, service, parse);
      CompleteSubmit(outcome);
    }

    /** `resetApp` */
    method ResetApp()
      modifies this
      ensures State() == Next(old(State()), Reset)
      ensures Inv(State())
    {
      appState, result, error := FORM, None, None;
    }
  }
}
