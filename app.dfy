/** The route handlers of app.py as state transitions over an in-memory store
    (the three tables) and one client's session (the quiz keys of Flask's
    session dict and the id flask_login remembers). Each handler checks its
    gates first, then changes the store or the session, and answers with an
    Outcome. Every handler keeps the store invariant: usernames are unique and
    every result belongs to an existing user. */
module QuizApp {
  import opened Records
  import opened Responses
  import opened Auth
  import opened Selection
  import opened Batch

  /** The quiz keys of the session dict; None when the key is absent. */
  datatype Session = Session(score: Option<int>, questionsAnswered: Option<int>, totalQuestions: Option<int>)

  const EMPTY_SESSION := Session(None, None, None)

  /** `request.form.get('answer')` compared with the stored answer by exact
      string equality: a missing answer never scores. */
  predicate Scores(form: map<string, string>, q: Question) {
    "answer" in form && form["answer"] == q.answer
  }

  /** The six keys `edit_question` reads with `request.form[...]`. */
  predicate HasEditFields(form: map<string, string>) {
    && "question" in form && "option_a" in form && "option_b" in form
    && "option_c" in form && "option_d" in form && "answer" in form
  }

  /** The session's score never exceeds the number of questions answered:
      every point comes with one more answered question. (Nothing bounds
      either by the number of questions: the same question can be posted
      again.) */
  predicate Progress(s: Session) {
    s.score.Some? && s.questionsAnswered.Some? ==> 0 <= s.score.value <= s.questionsAnswered.value
  }

  /** The user table after `user.is_admin = True` on row id. */
  function Promote(users: map<nat, User>, id: nat): (promoted: map<nat, User>)
    requires id in users
    ensures promoted.Keys == users.Keys
    ensures promoted[id].isAdmin
    ensures promoted[id].username == users[id].username && promoted[id].password == users[id].password
    ensures forall k :: k in users && k != id ==> promoted[k] == users[k]
  {
    users[id := users[id].(isAdmin := true)]
  }

  /** Promoting twice is promoting once, and promotion keeps usernames unique. */
  lemma PromoteIdempotent(users: map<nat, User>, id: nat)
    requires id in users
    ensures Promote(Promote(users, id), id) == Promote(users, id)
    ensures UniqueUsernames(users) ==> UniqueUsernames(Promote(users, id))
  {
    var once := Promote(users, id);
    assert once[id].(isAdmin := true) == once[id];
  }

  /** The row `submit_quiz` builds from the session for user uid, with the
      count passed under totalKeyword; None when construction or insert fails. */
  function SubmittedRow(totalKeyword: string, s: Session, uid: nat): (row: Option<QuizResult>)
    ensures row.Some? <==> totalKeyword == "total"
    ensures row.Some? ==> row.value == QuizResult(s.score.GetOr(0), s.totalQuestions.GetOr(0), uid)
  {
    MakeResult({"user_id", "score", totalKeyword}, s.score.GetOr(0), s.totalQuestions.GetOr(0), uid)
  }

  /** after is before plus one row under each id of ids, all of them new and
      distinct, with every row of before untouched. */
  ghost predicate FreshRows(before: map<nat, Question>, after: map<nat, Question>, ids: seq<nat>) {
    && (forall j :: 0 <= j < |ids| ==> ids[j] !in before)
    && (forall j, k :: 0 <= j < k < |ids| ==> ids[j] != ids[k])
    && after.Keys == before.Keys + (set x | x in ids)
    && (forall id :: id in before ==> after[id] == before[id])
  }

  /** FreshRows, and the row under ids[j] is items[j]. */
  ghost predicate AddsRows(before: map<nat, Question>, after: map<nat, Question>, ids: seq<nat>, items: seq<Question>) {
    && FreshRows(before, after, ids)
    && |ids| == |items|
    && (forall j :: 0 <= j < |ids| ==> after[ids[j]] == items[j])
  }

  /** The ids of ids + [id] are those of ids and id. */
  lemma IdsAppend(ids: seq<nat>, id: nat)
    ensures (set x | x in ids + [id]) == (set x | x in ids) + {id}
  {
    forall x | x in ids + [id]
      ensures x in ids || x == id
    {
    }
  }

  /** One more insertion under an unused id extends AddsRows. */
  lemma AddRowStep(before: map<nat, Question>, after: map<nat, Question>, ids: seq<nat>, items: seq<Question>, id: nat, q: Question)
    requires AddsRows(before, after, ids, items)
    requires id !in after
    ensures AddsRows(before, after[id := q], ids + [id], items + [q])
  {
    var ids', items', after' := ids + [id], items + [q], after[id := q];
    IdsAppend(ids, id);
    forall j | 0 <= j < |ids|
      ensures ids'[j] != id && after'[ids'[j]] == items'[j]
    {
      assert ids[j] in after;
    }
  }

  class App {
    var users: map<nat, User>
    var questions: map<nat, Question>
    var results: seq<QuizResult>
    var session: Session
    /** The user id flask_login keeps in the session after `login_user`. */
    var currentUser: Option<nat>

    ghost predicate Valid()
      reads this
    {
      StoreInvariant(users, results)
    }

    /** `db.create_all()` on an empty database, and a fresh client. */
    constructor ()
      ensures Valid()
      ensures users == map[] && questions == map[] && results == []
      ensures session == EMPTY_SESSION && currentUser == None
    {
      users, questions, results := map[], map[], [];
      session, currentUser := EMPTY_SESSION, None;
    }

    /** `current_user`: the remembered id loaded through `load_user`; anonymous
        when nobody logged in or the user row is gone. */
    function Caller(): (caller: Option<User>)
      reads this
      ensures caller.Some? <==> currentUser.Some? && currentUser.value in users
      ensures caller.Some? ==> caller.value == users[currentUser.value]
    {
      if currentUser.Some? then LoadUser(users, currentUser.value) else None
    }

    // -------------------------------------------------------------------------
    // Admin operations: @login_required @admin_required

    /** `admin_dashboard`: admins see every user and every question; the
        request changes nothing. */
    method Dashboard() returns (o: Outcome)
      ensures AdminRoute(Caller()).Some? ==> o == AdminRoute(Caller()).value
      ensures IsAdmin(Caller()) ==> o == Rendered(AdminPage(users, questions))
    {
      var denied := AdminRoute(Caller());
      if denied.Some? {
        return denied.value;
      }
      o := Rendered(AdminPage(users, questions));
    }

    /** `make_admin`: promotes an existing user, who may already be an admin;
        nothing else changes. */
    method MakeAdmin(userId: nat) returns (o: Outcome)
      requires Valid()
      modifies this
      ensures Valid()
      ensures AdminRoute(old(Caller())).Some? ==> o == AdminRoute(old(Caller())).value && unchanged(this)
      ensures AdminRoute(old(Caller())).None? && userId !in old(users) ==> o == NotFound && unchanged(this)
      ensures AdminRoute(old(Caller())).None? && userId in old(users) ==>
        && o == Redirect(AdminDashboard)
        && users == Promote(old(users), userId)
        && questions == old(questions) && results == old(results)
        && session == old(session) && currentUser == old(currentUser)
    {
      var denied := AdminRoute(Caller());
      if denied.Some? {
        return denied.value;
      }
      if userId !in users {
        return NotFound;
      }
      PromoteIdempotent(users, userId);
      users := Promote(users, userId);
      o := Redirect(AdminDashboard);
    }

    /** `delete_user`: removes every result the user owns, then the user; the
        other users and their results are untouched. */
    method DeleteUser(userId: nat) returns (o: Outcome)
      requires Valid()
      modifies this
      ensures Valid()
      ensures AdminRoute(old(Caller())).Some? ==> o == AdminRoute(old(Caller())).value && unchanged(this)
      ensures AdminRoute(old(Caller())).None? && userId !in old(users) ==> o == NotFound && unchanged(this)
      ensures AdminRoute(old(Caller())).None? && userId in old(users) ==>
        && o == Redirect(AdminDashboard)
        && users == old(users) - {userId}
        && results == ResultsWithout(old(results), userId)
        && questions == old(questions) && session == old(session) && currentUser == old(currentUser)
    {
      var denied := AdminRoute(Caller());
      if denied.Some? {
        return denied.value;
      }
      if userId !in users {
        return NotFound;
      }
      CascadeKeepsOwnership(results, users, userId);
      results := ResultsWithout(results, userId);
      users := users - {userId};
      o := Redirect(AdminDashboard);
    }

    /** `edit_question`: a POST overwrites all six fields of the question and
        keeps its id; the fields are not checked for emptiness. */
    method EditQuestion(questionId: nat, verb: Verb, form: map<string, string>) returns (o: Outcome)
      requires Valid()
      modifies this
      ensures Valid()
      ensures AdminRoute(old(Caller())).Some? ==> o == AdminRoute(old(Caller())).value && unchanged(this)
      ensures AdminRoute(old(Caller())).None? && questionId !in old(questions) ==> o == NotFound && unchanged(this)
      ensures AdminRoute(old(Caller())).None? && questionId in old(questions) && verb == Get ==>
        o == Rendered(EditQuestionPage(questionId, old(questions)[questionId])) && unchanged(this)
      ensures AdminRoute(old(Caller())).None? && questionId in old(questions) && verb == Post && !HasEditFields(form) ==>
        o == BadRequest && unchanged(this)
      ensures AdminRoute(old(Caller())).None? && questionId in old(questions) && verb == Post && HasEditFields(form) ==>
        && o == Redirect(AdminDashboard)
        && questions == old(questions)[questionId := Question(form["question"], form["option_a"], form["option_b"],
                                                              form["option_c"], form["option_d"], form["answer"])]
        && users == old(users) && results == old(results)
        && session == old(session) && currentUser == old(currentUser)
    {
      var denied := AdminRoute(Caller());
      if denied.Some? {
        return denied.value;
      }
      if questionId !in questions {
        return NotFound;
      }
      if verb == Get {
        return Rendered(EditQuestionPage(questionId, questions[questionId]));
      }
      if !HasEditFields(form) {
        return BadRequest;
      }
      questions := questions[questionId := Question(form["question"], form["option_a"], form["option_b"],
                                                    form["option_c"], form["option_d"], form["answer"])];
      o := Redirect(AdminDashboard);
    }

    /** `delete_question`: removes the question; nothing refers to it. */
    method DeleteQuestion(questionId: nat) returns (o: Outcome)
      requires Valid()
      modifies this
      ensures Valid()
      ensures AdminRoute(old(Caller())).Some? ==> o == AdminRoute(old(Caller())).value && unchanged(this)
      ensures AdminRoute(old(Caller())).None? && questionId !in old(questions) ==> o == NotFound && unchanged(this)
      ensures AdminRoute(old(Caller())).None? && questionId in old(questions) ==>
        && o == Redirect(AdminDashboard)
        && questions == old(questions) - {questionId}
        && users == old(users) && results == old(results)
        && session == old(session) && currentUser == old(currentUser)
    {
      var denied := AdminRoute(Caller());
      if denied.Some? {
        return denied.value;
      }
      if questionId !in questions {
        return NotFound;
      }
      questions := questions - {questionId};
      o := Redirect(AdminDashboard);
    }

    // -------------------------------------------------------------------------
    // Authentication

    /** `register`: a taken username changes nothing; otherwise exactly one
        user is added under a fresh id, storing the hash of the password, and it
        is an admin exactly when the store had no users before. */
    method Register(verb: Verb, form: map<string, string>, hash: string -> string) returns (o: Outcome, ghost newId: nat)
      requires Valid()
      modifies this
      ensures Valid()
      ensures verb == Get ==> o == Rendered(RegisterPage) && unchanged(this)
      ensures verb == Post && !("username" in form && "password" in form) ==> o == BadRequest && unchanged(this)
      ensures verb == Post && "username" in form && "password" in form
              && (exists id :: id in old(users) && old(users)[id].username == form["username"]) ==>
        o == Redirect(RegisterView) && unchanged(this)
      ensures verb == Post && "username" in form && "password" in form
              && (forall id :: id in old(users) ==> old(users)[id].username != form["username"]) ==>
        && o == Redirect(LoginView)
        && newId !in old(users)
        && users == old(users)[newId := User(form["username"], hash(form["password"]), |old(users)| == 0)]
        && questions == old(questions) && results == old(results)
        && session == old(session) && currentUser == old(currentUser)
    {
      newId := 0;
      if verb == Get {
        return Rendered(RegisterPage), newId;
      }
      if !("username" in form && "password" in form) {
        return BadRequest, newId;
      }
      var username := form["username"];
      var hashed := hash(form["password"]);
      if FindUser(users, username).Some? {
        return Redirect(RegisterView), newId;
      }
      var isAdmin := |users| == 0;
      FreshKeyExists(users.Keys);
      var id: nat :| id !in users.Keys;
      var user := NewUser(username, hashed, Some(isAdmin));
      AddUserKeepsInvariant(users, results, id, user);
      users := users[id := user];
      newId := id;
      o := Redirect(LoginView);
    }

    /** `login`: an unknown username or a failed password check changes
        nothing; success remembers the user and sends admins to the dashboard
        and everyone else to the quiz. */
    method Login(verb: Verb, form: map<string, string>, checkHash: (string, string) -> bool) returns (o: Outcome)
      requires Valid()
      modifies this
      ensures Valid()
      ensures verb == Get ==> o == Rendered(LoginPage) && unchanged(this)
      ensures verb == Post && !("username" in form && "password" in form) ==> o == BadRequest && unchanged(this)
      ensures verb == Post && "username" in form && "password" in form ==>
        match FindUser(old(users), form["username"])
        case None => o == Redirect(LoginView) && unchanged(this)
        case Some(id) =>
          if !checkHash(old(users)[id].password, form["password"]) then o == Redirect(LoginView) && unchanged(this)
          else
            && currentUser == Some(id)
            && o == Redirect(if old(users)[id].isAdmin then AdminDashboard else QuizView)
            && users == old(users) && questions == old(questions)
            && results == old(results) && session == old(session)
    {
      if verb == Get {
        return Rendered(LoginPage);
      }
      if !("username" in form && "password" in form) {
        return BadRequest;
      }
      var found := FindUser(users, form["username"]);
      if found.None? {
        return Redirect(LoginView);
      }
      var id := found.value;
      if !checkHash(users[id].password, form["password"]) {
        return Redirect(LoginView);
      }
      currentUser := Some(id);
      o := Redirect(if users[id].isAdmin then AdminDashboard else QuizView);
    }

    /** `logout`: forgets the user; the quiz keys of the session stay. */
    method Logout() returns (o: Outcome)
      requires Valid()
      modifies this
      ensures Valid()
      ensures old(Caller()).None? ==> o == Redirect(LoginView) && unchanged(this)
      ensures old(Caller()).Some? ==>
        && o == Redirect(IndexView) && currentUser == None
        && users == old(users) && questions == old(questions)
        && results == old(results) && session == old(session)
    {
      var denied := LoginRequired(Caller());
      if denied.Some? {
        return denied.value;
      }
      currentUser := None;
      o := Redirect(IndexView);
    }

    // -------------------------------------------------------------------------
    // The quiz: @login_required

    /** `quiz`: a POST starts a quiz at question 1 with a zero score; a GET
        snapshots the current number of questions. */
    method Quiz(verb: Verb) returns (o: Outcome)
      requires Valid()
      modifies this
      ensures Valid()
      ensures old(Caller()).None? ==> o == Redirect(LoginView) && unchanged(this)
      ensures Progress(old(session)) ==> Progress(session)
      ensures old(Caller()).Some? && verb == Post ==>
        && o == Redirect(QuestionView(1))
        && session == old(session).(score := Some(0), questionsAnswered := Some(0))
        && users == old(users) && questions == old(questions)
        && results == old(results) && currentUser == old(currentUser)
      ensures old(Caller()).Some? && verb == Get ==>
        && o == Rendered(QuizPage(|old(questions)|))
        && session == old(session).(totalQuestions := Some(|old(questions)|))
        && users == old(users) && questions == old(questions)
        && results == old(results) && currentUser == old(currentUser)
    {
      var denied := LoginRequired(Caller());
      if denied.Some? {
        return denied.value;
      }
      if verb == Post {
        session := session.(score := Some(0));
        session := session.(questionsAnswered := Some(0));
        return Redirect(QuestionView(1));
      }
      session := session.(totalQuestions := Some(|questions|));
      o := Rendered(QuizPage(|questions|));
    }

    /** `next_question`: a missing question n ends the quiz without any change.
        Answering question n scores one point exactly when the submitted
        answer equals the stored one, always counts one more answered question,
        and moves on to question n + 1. The session keys are updated in place,
        so a quiz that was never started fails on the first missing key after
        the updates before it. */
    method NextQuestion(n: nat, verb: Verb, form: map<string, string>) returns (o: Outcome)
      requires Valid()
      modifies this
      ensures Valid()
      ensures users == old(users) && questions == old(questions)
      ensures results == old(results) && currentUser == old(currentUser)
      ensures session.totalQuestions == old(session).totalQuestions
      ensures Progress(old(session)) ==> Progress(session)
      ensures old(Caller()).None? ==> o == Redirect(LoginView) && unchanged(this)
      ensures old(Caller()).Some? && n !in old(questions) ==> o == Redirect(ResultView) && unchanged(this)
      ensures old(Caller()).Some? && n in old(questions) && verb == Get ==>
        var q := old(questions)[n];
        o == Rendered(QuestionPage(n, q, [q.optionA, q.optionB, q.optionC, q.optionD], |old(questions)|))
        && unchanged(this)
      ensures old(Caller()).Some? && n in old(questions) && verb == Post ==>
        var correct := Scores(form, old(questions)[n]);
        if correct && old(session).score.None? then
          o == ServerError && session == old(session)
        else
          && session.score == (if correct then Some(old(session).score.value + 1) else old(session).score)
          && if old(session).questionsAnswered.None? then
               o == ServerError && session.questionsAnswered == None
             else
               o == Redirect(QuestionView(n + 1))
               && session.questionsAnswered == Some(old(session).questionsAnswered.value + 1)
    {
      var denied := LoginRequired(Caller());
      if denied.Some? {
        return denied.value;
      }
      if n !in questions {
        return Redirect(ResultView);
      }
      var question := questions[n];
      if verb == Get {
        var options := [question.optionA, question.optionB, question.optionC, question.optionD];
        return Rendered(QuestionPage(n, question, options, |questions|));
      }
      if Scores(form, question) {
        if session.score.None? {
          return ServerError;
        }
        session := session.(score := Some(session.score.value + 1));
      }
      if session.questionsAnswered.None? {
        return ServerError;
      }
      session := session.(questionsAnswered := Some(session.questionsAnswered.value + 1));
      o := Redirect(QuestionView(n + 1));
    }

    /** `submit_quiz`, with the count passed under the keyword totalKeyword and
        the redirect going to endpoint. The row is built from the session's
        score and question-count snapshot (each 0 when absent) for the caller;
        if the constructor or the insert fails nothing changes and the request
        ends in a server error. Otherwise the row is stored, the score and the
        answered count are popped (the snapshot stays), and the answer is the
        redirect, or a server error when no view has that endpoint name. */
    method SubmitQuizWith(totalKeyword: string, endpoint: string) returns (o: Outcome)
      requires Valid()
      modifies this
      ensures Valid()
      ensures old(Caller()).None? ==> o == Redirect(LoginView) && unchanged(this)
      ensures old(Caller()).Some? && SubmittedRow(totalKeyword, old(session), old(currentUser).value).None? ==>
        o == ServerError && unchanged(this)
      ensures old(Caller()).Some? && SubmittedRow(totalKeyword, old(session), old(currentUser).value).Some? ==>
        && results == old(results) + [SubmittedRow(totalKeyword, old(session), old(currentUser).value).value]
        && session == Session(None, None, old(session).totalQuestions)
        && users == old(users) && questions == old(questions) && currentUser == old(currentUser)
        && o == RedirectTo(endpoint)
    {
      var denied := LoginRequired(Caller());
      if denied.Some? {
        return denied.value;
      }
      var score := session.score.GetOr(0);
      var total := session.totalQuestions.GetOr(0);
      var row := MakeResult({"user_id", "score", totalKeyword}, score, total, currentUser.value);
      if row.None? {
        return ServerError;
      }
      AddResultKeepsInvariant(users, results, row.value);
      results := results + [row.value];
      session := session.(score := None);
      session := session.(questionsAnswered := None);
      o := RedirectTo(endpoint);
    }

    /** `submit_quiz` with its evident intent (`total=`, redirect to `result`):
        records one result from the session's score and question-count
        snapshot (each 0 when absent) for the caller, forgets the score and the
        answered count but keeps the snapshot, and shows the results view. */
    method SubmitQuiz() returns (o: Outcome)
      requires Valid()
      modifies this
      ensures Valid()
      ensures old(Caller()).None? ==> o == Redirect(LoginView) && unchanged(this)
      ensures old(Caller()).Some? ==>
        && o == Redirect(ResultView)
        && results == old(results) + [QuizResult(old(session).score.GetOr(0), old(session).totalQuestions.GetOr(0), old(currentUser).value)]
        && session == Session(None, None, old(session).totalQuestions)
        && users == old(users) && questions == old(questions) && currentUser == old(currentUser)
    {
      TotalQuestionsIsNotAColumn(session.score.GetOr(0), session.totalQuestions.GetOr(0), currentUser.GetOr(0));
      QuizResultsIsNotAnEndpoint();
      o := SubmitQuizWith("total", "result");
    }

    /** `submit_quiz` as written: the constructor is given `total_questions=`,
        which is not a column, so it raises before anything is stored or
        popped and the request ends in a server error. */
    method SubmitQuizAsWritten() returns (o: Outcome)
      requires Valid()
      modifies this
      ensures Valid()
      ensures old(Caller()).None? ==> o == Redirect(LoginView) && unchanged(this)
      ensures old(Caller()).Some? ==> o == ServerError && unchanged(this)
    {
      TotalQuestionsIsNotAColumn(session.score.GetOr(0), session.totalQuestions.GetOr(0), currentUser.GetOr(0));
      o := SubmitQuizWith("total_questions", "quiz_results");
    }

    /** `submit_quiz` with only the keyword corrected: the result is stored and
        the score and answered count are popped, but `url_for('quiz_results')`
        raises, so the request still ends in a server error. */
    method SubmitQuizRedirectAsWritten() returns (o: Outcome)
      requires Valid()
      modifies this
      ensures Valid()
      ensures old(Caller()).None? ==> o == Redirect(LoginView) && unchanged(this)
      ensures old(Caller()).Some? ==>
        && o == ServerError
        && results == old(results) + [QuizResult(old(session).score.GetOr(0), old(session).totalQuestions.GetOr(0), old(currentUser).value)]
        && session == Session(None, None, old(session).totalQuestions)
        && users == old(users) && questions == old(questions) && currentUser == old(currentUser)
    {
      TotalQuestionsIsNotAColumn(session.score.GetOr(0), session.totalQuestions.GetOr(0), currentUser.GetOr(0));
      QuizResultsIsNotAnEndpoint();
      o := SubmitQuizWith("total", "quiz_results");
    }

    /** `result`: records one more result, from the session's score (0 when
        absent) against the live number of questions, without clearing the
        session, so every visit records again. The page shows the caller's
        high score, at least the score just recorded, and the leaderboard. */
    method Result() returns (o: Outcome)
      requires Valid()
      modifies this
      ensures Valid()
      ensures old(Caller()).None? ==> o == Redirect(LoginView) && unchanged(this)
      ensures old(Caller()).Some? ==>
        var uid := old(currentUser).value;
        var score := old(session).score.GetOr(0);
        && results == old(results) + [QuizResult(score, |old(questions)|, uid)]
        && o == Rendered(ResultPage(score, |old(questions)|, HighScore(results, uid), Leaderboard(results)))
        && o.page.userHighScore >= score
        && users == old(users) && questions == old(questions)
        && session == old(session) && currentUser == old(currentUser)
    {
      var denied := LoginRequired(Caller());
      if denied.Some? {
        return denied.value;
      }
      var uid := currentUser.value;
      var score := session.score.GetOr(0);
      var total := |questions|;
      var row := QuizResult(score, total, uid);
      AddResultKeepsInvariant(users, results, row);
      HighScoreCoversLast(results, row);
      results := results + [row];
      var highScore := HighScore(results, uid);
      o := Rendered(ResultPage(score, total, highScore, Leaderboard(results)));
    }

    /** The second loop of `add_question`: adds each question of the batch, in
        order, under a fresh id; nothing but the question table changes. */
    method InsertQuestions(items: seq<Question>) returns (ghost ids: seq<nat>)
      requires Valid()
      modifies this
      ensures Valid()
      ensures AddsRows(old(questions), questions, ids, items)
      ensures users == old(users) && results == old(results)
      ensures session == old(session) && currentUser == old(currentUser)
    {
      ids := [];
      for i := 0 to |items|
        invariant users == old(users) && results == old(results)
        invariant session == old(session) && currentUser == old(currentUser)
        invariant AddsRows(old(questions), questions, ids, items[..i])
      {
        FreshKeyExists(questions.Keys);
        var id: nat :| id !in questions.Keys;
        AddRowStep(old(questions), questions, ids, items[..i], id, items[i]);
        assert items[..i + 1] == items[..i] + [items[i]];
        questions := questions[id := items[i]];
        ids := ids + [id];
      }
      assert items[..|items|] == items;
    }

    /** `add_question`: only admins get past the inline check. A POST reads
        len(form) // 6 questions and inserts either all of them, each under a
        fresh id with the six fields of its group, or, when any field of any
        of them is missing or empty, none. */
    method AddQuestion(verb: Verb, form: map<string, string>) returns (o: Outcome, ghost newIds: seq<nat>)
      requires Valid()
      modifies this
      ensures Valid()
      ensures users == old(users) && results == old(results)
      ensures session == old(session) && currentUser == old(currentUser)
      ensures old(Caller()).None? ==> o == Redirect(LoginView) && unchanged(this)
      ensures old(Caller()).Some? && !old(Caller()).value.isAdmin ==> o == Redirect(IndexView) && unchanged(this)
      ensures IsAdmin(old(Caller())) && verb == Get ==> o == Rendered(AddQuestionPage) && unchanged(this)
      ensures IsAdmin(old(Caller())) && verb == Post && (exists i :: 0 <= i < BatchSize(form) && ItemAt(form, i).None?) ==>
        o == Redirect(AddQuestionView) && unchanged(this)
      ensures IsAdmin(old(Caller())) && verb == Post && (forall i :: 0 <= i < BatchSize(form) ==> ItemAt(form, i).Some?) ==>
        && o == Redirect(AdminDashboard)
        && |newIds| == BatchSize(form)
        && FreshRows(old(questions), questions, newIds)
        && forall j :: 0 <= j < |newIds| ==> ItemAt(form, j) == Some(questions[newIds[j]])
    {
      newIds := [];
      var denied := LoginRequired(Caller());
      if denied.Some? {
        return denied.value, newIds;
      }
      if !Caller().value.isAdmin {
        return Redirect(IndexView), newIds;
      }
      if verb == Get {
        return Rendered(AddQuestionPage), newIds;
      }
      var batch := CollectBatch(form);
      if batch.None? {
        return Redirect(AddQuestionView), newIds;
      }
      var items := batch.value;
      newIds := InsertQuestions(items);
      o := Redirect(AdminDashboard);
    }
  }

  /** The caller is logged in and an admin. */
  predicate IsAdmin(caller: Option<User>) {
    caller.Some? && caller.value.isAdmin
  }
}
