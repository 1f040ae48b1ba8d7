# Flask quiz app: a Dafny model of its route handlers and records

This project models a small multi-user quiz web application. Users register, log in, answer
a sequence of multiple-choice questions, and see their score beside a leaderboard. Administrators
promote and delete users and manage the question bank. The model covers the route
handlers of `app.py` and the three records of `model.py`, without the web and database layers:

- `records.dfy` (module `Records`) holds the `User`, `QuizResult` and `Question` rows, and the two
  store invariants the schema declares: usernames are unique, which the database's unique index
  enforces, and every result belongs to an existing user. SQLite checks that foreign key only
  when the connection turns foreign keys on, which the application never does, so it is the
  handlers that keep it (`delete_user` deletes a user's results before the user). It also holds `Question.__repr__` with a parser that proves the rendering can be read back,
  the decimal rendering of ids, and helpers for fresh and ordered primary keys.
- `responses.dfy` (module `Responses`) holds what a handler answers: a redirect to a named view, a
  rendered page with the values handed to its template, 403, 404, 400 (a missing `request.form[...]`
  key) or 500 (an uncaught exception).
- `auth.dfy` (module `Auth`) holds `load_user`, `@login_required`, `@admin_required` and the
  username lookup.
- `selection.dfy` (module `Selection`) holds the queries: the cascade that removes a user's results,
  the high score, the top-ten leaderboard, and the `/api/questions` listing.
- `batch.dfy` (module `Batch`) holds the form of `add_question` (`len(form) // 6` groups of six
  fields) and its validation loop.
- `app.dfy` (module `QuizApp`) holds the class `App`, whose fields are the store (`users`,
  `questions`, `results`), one client's `session` (the optional `score`, `questions_answered` and
  `total_questions` keys), and the id `current_user` is loaded from. Each route handler that
  uses the store or the session is a method of `App`. It checks its gates, changes the fields
  step by step as the handler does, and returns an `Outcome`. Every handler that changes state
  requires and ensures `Valid()`, the store invariant. The read-only `Dashboard` has no
  `modifies` clause. `get_questions` changes nothing either: it is the function
  `Selection.ApiQuestions` of the question table.

Points where the code's behaviour is easy to misread:

- `submit_quiz` would record the session's `total_questions` snapshot once line 325 is fixed
  (as written it stores nothing, see Findings), while `result` records the live question count
  (app.py:322, app.py:346).
- `result` does not clear the session, so every visit to the results view records one more
  result (app.py:345-351).
- `edit_question` stores the six fields as given, empty strings included (app.py:129-134). Only
  `add_question` rejects empty fields.
- A non-admin caller of `add_question` is redirected to the index, not refused with 403
  (app.py:377-379).
- A quiz answer posted before the quiz was started raises on `session['score'] += 1` or
  `session['questions_answered'] += 1`. The model answers 500, and it keeps a score increment
  that already happened (app.py:305-306).

## Model

| member | source | states |
|---|---|---|
| Records.NewUser | model.py:42 | a new user is an admin only when `is_admin=True` is passed; the default is false |
| Records.UniqueUsernames | model.py:40 | no two user rows share a username |
| Records.ResultsOwned | model.py:59 | every result's `user_id` names an existing user |
| Records.StoreInvariant | model.py:39-60 | both constraints at once: the invariant every handler keeps |
| Records.AddUserKeepsInvariant | model.py:40 | adding a user under an unused id with an unused username keeps usernames unique and every result owned |
| Records.AddResultKeepsInvariant | model.py:59 | appending a result whose `user_id` names an existing user keeps every result owned |
| Records.MakeResult | model.py:56-60 | the constructor and insert of a result succeed if and only if every keyword is a column or the `user` backref, and score, total and an owner (as `user_id` or `user`) are given; the row then holds the given values |
| Records.TotalQuestionsIsNotAColumn | model.py:56-60 | building a result with `total_questions=` fails, and with `total=` it gives the expected row |
| Records.DecimalString | model.py:89 | `str(id)` of a non-negative integer is a non-empty digit string with no leading zero |
| Records.ParseDecimalString | model.py:89 | reading the decimal rendering of n back gives n |
| Records.DecimalStringInjective | model.py:89 | distinct ids render differently |
| Records.QuestionRepr | model.py:89 | the repr starts with `<Question ` and ends with `>` |
| Records.ReprRoundTrip | model.py:89 | the id and the question text can be recovered from the repr |
| Records.FreshKeyExists | model.py:39 | an unused primary key always exists for a new row |
| Records.LeastKey | model.py:39 | the least key of a non-empty key set: the first row in id order |
| Records.SortedKeys | model.py:75 | the keys in increasing order, each exactly once: rows in id order |
| Responses.UrlFor | app.py:334 | `url_for` with the endpoint name alone gives the view of a registered endpoint whose rule has no `<int:...>` part, and fails exactly for unregistered names and for the five parameterised endpoints |
| Responses.RedirectTo | app.py:334 | `redirect(url_for(e))` redirects if and only if e is registered and needs no URL value, and is a server error otherwise |
| Responses.QuizResultsIsNotAnEndpoint | app.py:334 | redirecting to `quiz_results` is a server error, while redirecting to `result` reaches the results view |
| Auth.LoadUser | app.py:173 | the user with that id if the row exists, else anonymous |
| Auth.LoginRequired | app.py:38-40 | anonymous callers are redirected to the login view; authenticated callers go on |
| Auth.AdminRequired | app.py:53-56 | the wrapped handler runs if and only if the caller is authenticated and an admin; otherwise 403 |
| Auth.AdminRoute | app.py:60-62 | the admin routes redirect anonymous callers to login, refuse non-admins with 403, and run only for admins |
| Auth.FindUser | app.py:202 | the least id whose username matches; none exactly when no user has that username |
| Selection.ResultsWithout | app.py:106 | the kept results are exactly those of other users, each as often as before |
| Selection.CascadeKeepsOwnership | app.py:105-109 | after removing a user and their results, every remaining result still has an owner |
| Selection.BestScore | app.py:354 | the best score among the user's results, and none exactly when the user has none |
| Selection.HighScore | app.py:354-361 | bounds every score of the user and is attained, or is 0 when the user has no result |
| Selection.HighScoreCoversLast | app.py:349-354 | right after a result is recorded, its owner's high score is at least its score |
| Selection.InsertByScore | app.py:355 | inserting into a best-first list keeps it best-first and adds exactly that result |
| Selection.SortByScore | app.py:355 | ordering by score descending is best-first and a permutation of the results |
| Selection.PrefixIsBest | app.py:355 | a prefix of a best-first permutation is drawn from the results, and nothing left out beats anything kept |
| Selection.Leaderboard | app.py:355 | `min(n, 10)` results: ten, or all of them when there are fewer |
| Selection.LeaderboardRanked | app.py:355 | the leaderboard is best first and drawn from the results, and no result left out scores more than one shown |
| Selection.ToJson | app.py:442-447 | one JSON entry carries the row's id, text, the four options in order A to D, and the answer |
| Selection.ListQuestions | app.py:442-447 | one JSON entry per id, built from that id's row |
| Selection.ListingFacts | app.py:441-448 | a listing built over the sorted ids covers every question exactly once, in id order, matching its row |
| Selection.ApiQuestions | app.py:441-448 | every question exactly once, in increasing id order, with its text, options A to D and answer; an empty bank lists nothing |
| Batch.BatchSize | app.py:384 | `len(form) // 6`: the number of complete groups of six fields in the form |
| Batch.FieldKey | app.py:387-392 | the key of a field is its name, an underscore, and then decimal digits only |
| Batch.FieldKeyNumber | app.py:387-392 | the digits after the underscore spell out the question's number |
| Batch.FieldKeysDistinct | app.py:387-392 | no two (field, question) pairs share a form key, so each field of each question is read from its own entry |
| Batch.Given | app.py:395-402 | a field counts as given when the key is present with a non-empty value |
| Batch.ItemAt | app.py:387-402 | question i of the form exists if and only if all six of its fields are present and non-empty, and it is built from them |
| Batch.CollectBatch | app.py:383-413 | the batch is accepted if and only if every one of the `len(form) // 6` items is complete, and then holds exactly those items in order |
| QuizApp.Scores | app.py:301-303 | an answer scores when the form has an `answer` equal to the stored answer |
| QuizApp.HasEditFields | app.py:129-134 | the six keys `edit_question` reads with `request.form[...]` are all present |
| QuizApp.Promote | app.py:87 | promotion sets `is_admin` on that row and changes no other row or field |
| QuizApp.PromoteIdempotent | app.py:86-87 | promoting twice equals promoting once; promotion keeps usernames unique |
| QuizApp.AddRowStep | app.py:416-426 | one more insertion under an unused id extends the batch of fresh rows, leaving every earlier row as it was |
| QuizApp.App.Valid | model.py:39-60 | the store invariant over the application's tables |
| QuizApp.App.constructor | app.py:452-453 | an empty store and a fresh client satisfy the store invariant |
| QuizApp.App.Caller | app.py:162-173 | the current user is the loaded row of the remembered id, or anonymous |
| QuizApp.App.Dashboard | app.py:60-71 | admins see all users and questions; everyone else is gated |
| QuizApp.App.MakeAdmin | app.py:74-90 | gate failures and a missing id (404) change nothing; otherwise exactly that user is promoted |
| QuizApp.App.DeleteUser | app.py:93-111 | a missing id is 404 with no change; otherwise the user's results, then the user, are removed and nothing else changes |
| QuizApp.App.EditQuestion | app.py:114-140 | a missing id is 404; a GET renders the row; a POST without all six keys is 400; otherwise all six fields are overwritten under the same id |
| QuizApp.App.DeleteQuestion | app.py:143-159 | a missing id is 404 with no change; otherwise exactly that question is removed |
| QuizApp.App.Register | app.py:186-219 | a taken username changes nothing and redirects back to register; otherwise exactly one user is added under a fresh id with the hashed password, and is admin if and only if there were no users before |
| QuizApp.App.Login | app.py:222-249 | an unknown user or a failed password check changes nothing; success sets the current user and redirects to the dashboard if and only if the user is an admin, else to the quiz |
| QuizApp.App.Logout | app.py:252-262 | forgets the current user only; the quiz keys stay |
| QuizApp.App.Quiz | app.py:265-282 | a POST sets score and answered to 0 and targets question 1; a GET sets the total to the current number of questions |
| QuizApp.App.NextQuestion | app.py:285-310 | a missing question redirects to the result with no change; an answer scores a point if and only if it equals the stored answer exactly, always counts as answered, and moves to n + 1; score never exceeds the answered count |
| QuizApp.SubmittedRow | app.py:321-325 | the row built from the session is stored exactly when the count goes under `total`, and then holds the score and the snapshot (0 when absent) |
| QuizApp.App.SubmitQuizWith | app.py:313-334 | a failed construction changes nothing and is a server error; otherwise the row is stored, score and answered are popped, the snapshot stays, and the answer is the redirect to the endpoint or a server error |
| QuizApp.App.SubmitQuiz | app.py:313-334 | records one result from the session's score and total (0 when absent) for the caller, pops score and answered, keeps the total |
| QuizApp.App.SubmitQuizAsWritten | app.py:321-334 | as written, every authenticated submission ends in a server error before anything is stored |
| QuizApp.App.SubmitQuizRedirectAsWritten | app.py:321-334 | with only the keyword corrected, the result is stored and score and answered are popped, and the request still ends in a server error |
| QuizApp.App.Result | app.py:337-364 | records one result with the session score and the live question count and keeps the session; the page shows a high score at least that score, and the leaderboard |
| QuizApp.App.InsertQuestions | app.py:415-426 | each question of the batch is added in order under a fresh distinct id; no existing row changes |
| QuizApp.App.AddQuestion | app.py:367-431 | non-admins are sent to the index with no change; an incomplete batch inserts nothing; otherwise exactly one question per item is added, with that item's six fields |

## Left out

- HTTP, routing, `render_template` and `flash` are left out. Redirects and pages are values of `Outcome`, and flash messages are dropped. URL building is left out too: `url_for` is modelled only as whether an endpoint name resolves, in `Responses.UrlFor`.
- The model follows Flask outside debug mode. `app.run(debug=True)` (app.py:454) makes Flask trap `BadRequestKeyError`, so in debug mode a missing `request.form[...]` key gives the debugger's 500 instead of the modelled 400. This affects `QuizApp.App.EditQuestion` (app.py:129-134), `QuizApp.App.Register` (app.py:195-196) and `QuizApp.App.Login` (app.py:232-233). The two session caveats below come from the same setting.
- `index` only renders a static template and touches no state, so it has no member.
- Password hashing: `generate_password_hash` is a function parameter of `QuizApp.App.Register`, and `check_password_hash` is a predicate parameter of `QuizApp.App.Login`. PBKDF2 and the random salt are not modelled: the salt is folded into the parameter.
- SQLAlchemy persistence, transactions and commits: the store is two maps and a sequence. The two commits of `delete_user` are one step.
- QuizApp.App.Register: the new user's id is stated only to be unused. SQLite's rowid allocation is not modelled.
- QuizApp.App.InsertQuestions: the new question ids are stated only to be unused and distinct, for the same reason.
- Result ids, the `date` column (`datetime.utcnow`) and the `User.results` relationship are not modelled.
- Records.QuestionRepr: only persisted rows are covered, so the id is a number. A question not yet flushed has `id` None and renders as `<Question None - ...>` (model.py:89). No handler calls `__repr__`.
- Records.MakeResult: only the five columns and the `user` backref are accepted as keywords. The constructor also accepts any other attribute of the class (`query`, `metadata`, methods), which no handler passes, and that is not modelled.
- Column length limits (`String(150)`, `String(200)`, `String(100)`) are not modelled, because SQLite does not enforce them.
- `.first()` and `.all()` are taken to return rows in id order.
- Selection.Leaderboard: equal scores keep the order in which they were recorded. The database leaves their order unspecified, and the contract says nothing about ties.
- Concurrency: each request runs atomically, so the race between two first registrations is not modelled.
- QuizApp.App.NextQuestion: the 500 path keeps an increment done before the exception, as Flask does when it saves the session while finalizing an error response. Under the interactive debugger that `app.py` starts, the exception propagates instead, and the session is not rewritten. That is not modelled.
- QuizApp.App.SubmitQuizRedirectAsWritten: the same holds for the 500 from `url_for('quiz_results')`. The commit at app.py:327 has already stored the row, but under the debugger the pops at app.py:330-331 are not saved to the session. The model keeps them.
- The secret key, the database URI and `app.run` are configuration and are left out.
- The session is one client's session; the cookie transport is left out.

## Findings

| source | as written | input that shows it | evidently intended | confidence | as-written member | corrected member |
|---|---|---|---|---|---|---|
| app.py:325 | `QuizResult(...)` is given the keyword `total_questions`, which is not a column, so the constructor raises | any authenticated POST to `/submit_quiz` | pass the snapshot as `total=` | not executed; high | QuizApp.App.SubmitQuizAsWritten | QuizApp.App.SubmitQuiz |
| app.py:334 | redirects to `url_for('quiz_results')`, but no view has that name, so building the URL raises after the result is stored | any authenticated POST to `/submit_quiz` once line 325 is fixed | redirect to `url_for('result')` | not executed; high | QuizApp.App.SubmitQuizRedirectAsWritten | QuizApp.App.SubmitQuiz |
