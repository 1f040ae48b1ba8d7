/** The queries app.py runs against the result and question tables: the
    cascade that removes a user's results, the user's high score and the
    leaderboard shown by `result`, and the JSON listing of `/api/questions`. */
module Selection {
  import opened Records

  // ---------------------------------------------------------------------------
  // QuizResult.query.filter_by(user_id=uid).delete()

  /** The results that survive deleting every result owned by uid: exactly the
      others, each as often as before. */
  function ResultsWithout(results: seq<QuizResult>, uid: nat): (kept: seq<QuizResult>)
    ensures forall k :: 0 <= k < |kept| ==> kept[k].userId != uid && kept[k] in results
    ensures forall x :: multiset(kept)[x] == if x.userId == uid then 0 else multiset(results)[x]
  {
    if results == [] then []
    else
      var rest := ResultsWithout(results[1..], uid);
      assert results == [results[0]] + results[1..];
      if results[0].userId == uid then rest else [results[0]] + rest
  }

  /** Deleting a user together with their results keeps every remaining result
      owned by a remaining user. */
  lemma CascadeKeepsOwnership(results: seq<QuizResult>, users: map<nat, User>, uid: nat)
    requires ResultsOwned(results, users)
    ensures ResultsOwned(ResultsWithout(results, uid), users - {uid})
  {
    var kept := ResultsWithout(results, uid);
    forall k | 0 <= k < |kept|
      ensures kept[k].userId in users - {uid}
    {
      var j :| 0 <= j < |results| && results[j] == kept[k];
    }
  }

  // ---------------------------------------------------------------------------
  // QuizResult.query.filter_by(user_id=uid).order_by(QuizResult.score.desc()).first()

  /** The best score among uid's results, if uid has any. */
  function BestScore(results: seq<QuizResult>, uid: nat): (best: Option<int>)
    ensures best.None? <==> forall k :: 0 <= k < |results| ==> results[k].userId != uid
    ensures best.Some? ==> exists k :: 0 <= k < |results| && results[k].userId == uid && results[k].score == best.value
    ensures best.Some? ==> forall k :: 0 <= k < |results| && results[k].userId == uid ==> results[k].score <= best.value
  {
    if results == [] then None
    else
      var last := results[|results| - 1];
      var before := BestScore(results[..|results| - 1], uid);
      assert forall k :: 0 <= k < |results| - 1 ==> results[..|results| - 1][k] == results[k];
      if last.userId != uid then before
      else if before.Some? && before.value >= last.score then before
      else Some(last.score)
  }

  /** `user_high_score.score if user_high_score else 0`. */
  function HighScore(results: seq<QuizResult>, uid: nat): (high: int)
    ensures forall k :: 0 <= k < |results| && results[k].userId == uid ==> results[k].score <= high
    ensures (exists k :: 0 <= k < |results| && results[k].userId == uid && results[k].score == high)
         || (high == 0 && forall k :: 0 <= k < |results| ==> results[k].userId != uid)
  {
    BestScore(results, uid).GetOr(0)
  }

  /** Right after a result is recorded, its owner's high score is at least that
      result's score. */
  lemma HighScoreCoversLast(results: seq<QuizResult>, r: QuizResult)
    ensures HighScore(results + [r], r.userId) >= r.score
  {
    var all := results + [r];
    assert all[|all| - 1] == r;
  }

  // ---------------------------------------------------------------------------
  // QuizResult.query.order_by(QuizResult.score.desc()).limit(10).all()

  const LEADERBOARD_SIZE := 10

  ghost predicate NonIncreasing(s: seq<QuizResult>) {
    forall i, j :: 0 <= i < j < |s| ==> s[i].score >= s[j].score
  }

  /** Inserts x after every entry scoring at least as much, so that equal scores
      keep their order of arrival. */
  function InsertByScore(x: QuizResult, s: seq<QuizResult>): (r: seq<QuizResult>)
    requires NonIncreasing(s)
    ensures NonIncreasing(r)
    ensures multiset(r) == multiset(s) + multiset{x}
    ensures |r| == |s| + 1
    ensures r[0] == x || (s != [] && r[0] == s[0])
  {
    if s == [] then [x]
    else if s[0].score >= x.score then
      var tail := InsertByScore(x, s[1..]);
      assert s == [s[0]] + s[1..];
      assert s[0].score >= tail[0].score;
      [s[0]] + tail
    else [x] + s
  }

  /** The results in non-increasing score order. */
  function SortByScore(results: seq<QuizResult>): (sorted: seq<QuizResult>)
    ensures NonIncreasing(sorted)
    ensures multiset(sorted) == multiset(results)
    ensures |sorted| == |results|
  {
    if results == [] then []
    else
      var init := results[..|results| - 1];
      assert results == init + [results[|results| - 1]];
      InsertByScore(results[|results| - 1], SortByScore(init))
  }

  /** What is cut off a sequence after position n is the rest of its multiset. */
  lemma CutOff(s: seq<QuizResult>, n: nat)
    requires n <= |s|
    ensures multiset(s) - multiset(s[..n]) == multiset(s[n..])
    ensures multiset(s[..n]) <= multiset(s)
  {
    assert s == s[..n] + s[n..];
  }

  /** A prefix of a best-first sequence is best first. */
  lemma PrefixSorted(s: seq<QuizResult>, n: nat)
    requires NonIncreasing(s) && n <= |s|
    ensures NonIncreasing(s[..n])
  {
    forall i, j | 0 <= i < j < n
      ensures s[..n][i].score >= s[..n][j].score
    {
      assert s[..n][i] == s[i] && s[..n][j] == s[j];
    }
  }

  /** In a best-first sequence nothing after position n beats anything before it. */
  lemma SuffixBelowPrefix(s: seq<QuizResult>, n: nat)
    requires NonIncreasing(s) && n <= |s|
    ensures forall x, y :: x in multiset(s[n..]) && y in s[..n] ==> x.score <= y.score
  {
    forall x, y | x in multiset(s[n..]) && y in s[..n]
      ensures x.score <= y.score
    {
      assert x in s[n..];
      var j :| n <= j < |s| && s[j] == x;
      var i :| 0 <= i < n && s[i] == y;
    }
  }

  /** A prefix of a sorted arrangement of the results is sorted, is drawn from
      the results, and no result outside it scores more than one inside it. */
  lemma PrefixIsBest(results: seq<QuizResult>, sorted: seq<QuizResult>, n: nat)
    requires NonIncreasing(sorted) && multiset(sorted) == multiset(results) && n <= |sorted|
    ensures NonIncreasing(sorted[..n])
    ensures multiset(sorted[..n]) <= multiset(results)
    ensures forall x, y :: x in multiset(results) - multiset(sorted[..n]) && y in sorted[..n] ==> x.score <= y.score
  {
    PrefixSorted(sorted, n);
    CutOff(sorted, n);
    SuffixBelowPrefix(sorted, n);
    assert multiset(results) - multiset(sorted[..n]) == multiset(sorted[n..]);
  }

  /** top is drawn from results, best first, and no result left out scores
      more than one kept. */
  ghost predicate Ranked(top: seq<QuizResult>, results: seq<QuizResult>) {
    && NonIncreasing(top)
    && multiset(top) <= multiset(results)
    && forall x, y :: x in multiset(results) - multiset(top) && y in top ==> x.score <= y.score
  }

  /** The leaderboard: the ten best results, or all of them when there are
      fewer (LeaderboardRanked states which ones). */
  function Leaderboard(results: seq<QuizResult>): (top: seq<QuizResult>)
    ensures |top| == if |results| < LEADERBOARD_SIZE then |results| else LEADERBOARD_SIZE
  {
    var sorted := SortByScore(results);
    sorted[..if |sorted| < LEADERBOARD_SIZE then |sorted| else LEADERBOARD_SIZE]
  }

  /** The leaderboard is best first and drawn from the results, and no result
      left out scores more than one shown. */
  lemma LeaderboardRanked(results: seq<QuizResult>)
    ensures Ranked(Leaderboard(results), results)
  {
    var sorted := SortByScore(results);
    PrefixIsBest(results, sorted, if |sorted| < LEADERBOARD_SIZE then |sorted| else LEADERBOARD_SIZE);
  }

  // ---------------------------------------------------------------------------
  // get_questions: the JSON body of /api/questions

  /** One entry of the `questions` list, answer included. */
  datatype QuestionJson = QuestionJson(id: nat, question: string, options: seq<string>, answer: string)

  function ToJson(id: nat, q: Question): (entry: QuestionJson)
    ensures entry.id == id && MatchesRow(entry, q) && |entry.options| == 4
  {
    QuestionJson(id, q.question, [q.optionA, q.optionB, q.optionC, q.optionD], q.answer)
  }

  /** The entry carries the row's text, its options in order A to D, and its answer. */
  predicate MatchesRow(entry: QuestionJson, q: Question) {
    && entry.question == q.question
    && entry.options == [q.optionA, q.optionB, q.optionC, q.optionD]
    && entry.answer == q.answer
  }

  function ListQuestions(ids: seq<nat>, questions: map<nat, Question>): (listing: seq<QuestionJson>)
    requires forall i :: 0 <= i < |ids| ==> ids[i] in questions
    ensures |listing| == |ids|
    ensures forall i :: 0 <= i < |ids| ==> listing[i] == ToJson(ids[i], questions[ids[i]])
  {
    if ids == [] then [] else [ToJson(ids[0], questions[ids[0]])] + ListQuestions(ids[1..], questions)
  }

  lemma ListingFacts(ids: seq<nat>, questions: map<nat, Question>, listing: seq<QuestionJson>)
    requires forall i, j :: 0 <= i < j < |ids| ==> ids[i] < ids[j]
    requires |ids| == |questions|
    requires forall i :: 0 <= i < |ids| ==> ids[i] in questions
    requires forall id :: id in questions ==> id in ids
    requires |listing| == |ids|
    requires forall i :: 0 <= i < |ids| ==> listing[i] == ToJson(ids[i], questions[ids[i]])
    ensures |listing| == |questions|
    ensures forall i, j :: 0 <= i < j < |listing| ==> listing[i].id < listing[j].id
    ensures (set i | 0 <= i < |listing| :: listing[i].id) == questions.Keys
    ensures forall i :: 0 <= i < |listing| ==> listing[i].id in questions && MatchesRow(listing[i], questions[listing[i].id])
  {
    assert forall i :: 0 <= i < |ids| ==> listing[i].id == ids[i];
    forall id | id in questions.Keys
      ensures id in (set i | 0 <= i < |listing| :: listing[i].id)
    {
      var i :| 0 <= i < |ids| && ids[i] == id;
      assert listing[i].id == id;
    }
  }

  /** Every question exactly once, in id order, with its four options in order
      A to D and its answer; an empty bank gives an empty list. */
  function ApiQuestions(questions: map<nat, Question>): (listing: seq<QuestionJson>)
    ensures |listing| == |questions|
    ensures forall i, j :: 0 <= i < j < |listing| ==> listing[i].id < listing[j].id
    ensures (set i | 0 <= i < |listing| :: listing[i].id) == questions.Keys
    ensures forall i :: 0 <= i < |listing| ==> listing[i].id in questions && MatchesRow(listing[i], questions[listing[i].id])
  {
    var ids := SortedKeys(questions.Keys);
    var listing := ListQuestions(ids, questions);
    ListingFacts(ids, questions, listing);
    listing
  }
}
