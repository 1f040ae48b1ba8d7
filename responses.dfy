/** What a route handler of app.py answers, with the HTTP and templating layers
    reduced to values: a redirect to a named view, a rendered page with the data
    handed to its template, or an error status. */
module Responses {
  import opened Records

  /** The request method a handler sees. */
  datatype Verb = Get | Post

  /** The views a handler redirects to (the argument of `url_for`). */
  datatype Target =
    | IndexView
    | LoginView
    | RegisterView
    | QuizView
    | QuestionView(number: nat)
    | ResultView
    | AdminDashboard
    | AddQuestionView
    | OtherView(endpoint: string)  // logout, submit_quiz, get_questions: never a redirect target here

  /** The templates a handler renders, with the values it passes to them. */
  datatype Page =
    | RegisterPage
    | LoginPage
    | QuizPage(questionCount: nat)
    | QuestionPage(number: nat, question: Question, options: seq<string>, totalQuestions: nat)
    | ResultPage(score: int, total: nat, userHighScore: int, leaderboard: seq<QuizResult>)
    | EditQuestionPage(questionId: nat, question: Question)
    | AddQuestionPage
    | AdminPage(users: map<nat, User>, questions: map<nat, Question>)

  datatype Outcome =
    | Redirect(target: Target)
    | Rendered(page: Page)
    | Forbidden    // abort(403)
    | NotFound     // get_or_404
    | BadRequest   // request.form[key] with the key missing
    | ServerError  // an exception the handler does not catch

  /** The endpoint names the application registers: one per view function. */
  const ENDPOINTS: set<string> := {
    "admin_dashboard", "make_admin", "delete_user", "edit_question", "delete_question",
    "index", "register", "login", "logout", "quiz", "next_question", "submit_quiz",
    "result", "add_question", "get_questions"
  }

  /** The endpoints whose URL rule has a `<int:...>` part: `url_for` with the
      name alone cannot build their URL and raises BuildError. */
  const PARAMETERISED_ENDPOINTS: set<string> := {
    "make_admin", "delete_user", "edit_question", "delete_question", "next_question"
  }

  /** The views handlers redirect to by name alone. */
  const NAMED_VIEWS: map<string, Target> := map[
    "index" := IndexView, "login" := LoginView, "register" := RegisterView, "quiz" := QuizView,
    "result" := ResultView, "admin_dashboard" := AdminDashboard, "add_question" := AddQuestionView
  ]

  /** `url_for(endpoint)` with no other argument: the view of a registered
      endpoint whose rule needs no value; for a name no view is registered under,
      or for a rule with a missing `<int:...>` value, Flask raises BuildError. */
  function UrlFor(endpoint: string): (target: Option<Target>)
    ensures target.None? <==> endpoint !in ENDPOINTS || endpoint in PARAMETERISED_ENDPOINTS
    ensures target.Some? && endpoint in NAMED_VIEWS ==> target.value == NAMED_VIEWS[endpoint]
  {
    if endpoint !in ENDPOINTS || endpoint in PARAMETERISED_ENDPOINTS then None
    else if endpoint in NAMED_VIEWS then Some(NAMED_VIEWS[endpoint])
    else Some(OtherView(endpoint))
  }

  /** `return redirect(url_for(endpoint))`: the redirect, or a server error when
      building the URL raises. */
  function RedirectTo(endpoint: string): (o: Outcome)
    ensures o.Redirect? <==> endpoint in ENDPOINTS && endpoint !in PARAMETERISED_ENDPOINTS
    ensures !o.Redirect? ==> o == ServerError
    ensures o.Redirect? && endpoint in NAMED_VIEWS ==> o.target == NAMED_VIEWS[endpoint]
  {
    match UrlFor(endpoint)
    case None => ServerError
    case Some(target) => Redirect(target)
  }

  /** `submit_quiz` redirects to `url_for('quiz_results')`, but no view of that
      name exists, so the request ends in a server error; the results view is
      `result`. */
  lemma QuizResultsIsNotAnEndpoint()
    ensures RedirectTo("quiz_results") == ServerError
    ensures RedirectTo("result") == Redirect(ResultView)
  {
    assert "quiz_results" !in ENDPOINTS;
    assert "result" in ENDPOINTS && "result" !in PARAMETERISED_ENDPOINTS && "result" in NAMED_VIEWS;
  }
}
