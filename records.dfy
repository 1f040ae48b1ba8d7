/** The three tables of the quiz application's database (model.py) as values.
    A row's primary key is not a field of its datatype: it is the key of the
    map that holds the row in the store (see QuizApp.App). */
module Records {

  datatype Option<+T> = None | Some(value: T) {
    /** `dict.get(key, default)`: the value if present, else the default. */
    function GetOr(default: T): T {
      match this
      case Some(v) => v
      case None => default
    }
  }

  /** A row of the `user` table; `password` holds the opaque password hash. */
  datatype User = User(username: string, password: string, isAdmin: bool)

  /** A row of the `quiz_result` table (its own id and its date are not modelled). */
  datatype QuizResult = QuizResult(score: int, total: int, userId: nat)

  /** A row of the `question` table: the text, four options and the correct answer. */
  datatype Question = Question(
    question: string,
    optionA: string,
    optionB: string,
    optionC: string,
    optionD: string,
    answer: string)

  /** The declarative constructor of `User`: `is_admin` defaults to false when not given. */
  function NewUser(username: string, password: string, isAdmin: Option<bool>): (u: User)
    ensures u.username == username && u.password == password
    ensures u.isAdmin <==> isAdmin == Some(true)
  {
    User(username, password, isAdmin.GetOr(false))
  }

  /** The column names of the `quiz_result` table. */
  const RESULT_COLUMNS: set<string> := {"id", "score", "total", "user_id", "date"}

  /** The keywords the declarative constructor of `QuizResult` accepts: its
      columns and the `user` backref that `User.results` declares. */
  const RESULT_KEYWORDS: set<string> := RESULT_COLUMNS + {"user"}

  /** The columns declared `nullable=False` other than the owner, which the
      insert needs a value for. */
  const REQUIRED_RESULT_COLUMNS: set<string> := {"score", "total"}

  /** `QuizResult(**kw)` with the score, the question count and the owner given
      under the keywords kw, followed by the insert: a keyword the class does not
      have raises TypeError in the constructor, and a missing non-null value
      (score, total, or an owner given neither as `user_id` nor as `user`) makes
      the insert fail, so in both cases no row is stored. */
  function MakeResult(kw: set<string>, score: int, total: int, userId: nat): (row: Option<QuizResult>)
    ensures row.Some? <==> kw <= RESULT_KEYWORDS && REQUIRED_RESULT_COLUMNS <= kw && ("user_id" in kw || "user" in kw)
    ensures row.Some? ==> row.value.score == score && row.value.total == total && row.value.userId == userId
  {
    if kw <= RESULT_KEYWORDS && REQUIRED_RESULT_COLUMNS <= kw && ("user_id" in kw || "user" in kw)
    then Some(QuizResult(score, total, userId))
    else None
  }

  /** `submit_quiz` passes `total_questions=` to the QuizResult constructor,
      which fails; with `total=` the row is built. */
  lemma TotalQuestionsIsNotAColumn(score: int, total: int, userId: nat)
    ensures MakeResult({"user_id", "score", "total_questions"}, score, total, userId) == None
    ensures MakeResult({"user_id", "score", "total"}, score, total, userId) == Some(QuizResult(score, total, userId))
  {
    assert "total_questions" !in RESULT_KEYWORDS;
  }

  /** `username` is declared unique, and the table's unique index enforces it:
      no two user rows share a username. */
  ghost predicate UniqueUsernames(users: map<nat, User>) {
    forall i, j :: i in users && j in users && users[i].username == users[j].username ==> i == j
  }

  /** `user_id` is declared a non-null foreign key: every result belongs to an
      existing user. SQLite does not check foreign keys unless the connection
      turns them on, which the application does not do, so it is the handlers
      that keep this (delete_user removes a user's results with the user). */
  ghost predicate ResultsOwned(results: seq<QuizResult>, users: map<nat, User>) {
    forall k :: 0 <= k < |results| ==> results[k].userId in users
  }

  /** The constraints the schema declares, which every handler keeps: the
      username one the database enforces, the ownership one the handlers maintain. */
  ghost predicate StoreInvariant(users: map<nat, User>, results: seq<QuizResult>) {
    UniqueUsernames(users) && ResultsOwned(results, users)
  }

  /** Adding a user under a new id and an unused username keeps the invariant. */
  lemma AddUserKeepsInvariant(users: map<nat, User>, results: seq<QuizResult>, id: nat, u: User)
    requires StoreInvariant(users, results)
    requires id !in users
    requires forall k :: k in users ==> users[k].username != u.username
    ensures StoreInvariant(users[id := u], results)
  {
    var users' := users[id := u];
    forall k | 0 <= k < |results|
      ensures results[k].userId in users'
    {
      assert results[k].userId in users;
    }
  }

  /** Recording a result owned by an existing user keeps the invariant. */
  lemma AddResultKeepsInvariant(users: map<nat, User>, results: seq<QuizResult>, r: QuizResult)
    requires StoreInvariant(users, results)
    requires r.userId in users
    ensures StoreInvariant(users, results + [r])
  {
    forall k | 0 <= k < |results| + 1
      ensures (results + [r])[k].userId in users
    {
      if k < |results| {
        assert (results + [r])[k] == results[k];
      }
    }
  }

  // ---------------------------------------------------------------------------
  // Decimal rendering of non-negative integers, as Python's str() writes them

  predicate IsDigit(c: char) {
    '0' <= c <= '9'
  }

  predicate AllDigits(s: string) {
    forall k :: 0 <= k < |s| ==> IsDigit(s[k])
  }

  function DigitChar(d: nat): (c: char)
    requires d < 10
    ensures IsDigit(c)
  {
    (48 + d) as char
  }

  function DigitValue(c: char): (d: nat)
    requires IsDigit(c)
    ensures d < 10
  {
    c as int - 48
  }

  /** The decimal digits of n, most significant first, with no leading zero. */
  function DecimalString(n: nat): (s: string)
    ensures |s| >= 1 && AllDigits(s)
    ensures s[0] == '0' ==> n == 0
  {
    if n < 10 then [DigitChar(n)] else DecimalString(n / 10) + [DigitChar(n % 10)]
  }

  /** The number a string of decimal digits denotes. */
  function ParseDecimal(s: string): nat
    requires AllDigits(s)
  {
    if s == [] then 0 else 10 * ParseDecimal(s[..|s| - 1]) + DigitValue(s[|s| - 1])
  }

  lemma {:induction false} ParseDecimalString(n: nat)
    ensures ParseDecimal(DecimalString(n)) == n
  {
    if n >= 10 {
      var s := DecimalString(n);
      assert s[..|s| - 1] == DecimalString(n / 10);
      ParseDecimalString(n / 10);
    }
  }

  /** Distinct numbers render as distinct strings. */
  lemma DecimalStringInjective(m: nat, n: nat)
    requires DecimalString(m) == DecimalString(n)
    ensures m == n
  {
    ParseDecimalString(m);
    ParseDecimalString(n);
  }

  // ---------------------------------------------------------------------------
  // Question.__repr__ and a parser that recovers its parts

  const REPR_PREFIX := "<Question "
  const REPR_SEPARATOR := " - "

  /** `f'<Question {self.id} - {self.question}>'` */
  function QuestionRepr(id: nat, q: Question): (s: string)
    ensures |s| > |REPR_PREFIX| && s[..|REPR_PREFIX|] == REPR_PREFIX && s[|s| - 1] == '>'
  {
    REPR_PREFIX + (DecimalString(id) + (REPR_SEPARATOR + (q.question + ">")))
  }

  /** s without its leading prefix, if it starts with it. */
  function DropPrefix(prefix: string, s: string): (rest: Option<string>)
    ensures rest.Some? <==> |prefix| <= |s| && s[..|prefix|] == prefix
    ensures rest.Some? ==> rest.value == s[|prefix|..]
  {
    if |prefix| <= |s| && s[..|prefix|] == prefix then Some(s[|prefix|..]) else None
  }

  lemma DropPrefixOf(prefix: string, rest: string)
    ensures DropPrefix(prefix, prefix + rest) == Some(rest)
  {
    assert (prefix + rest)[..|prefix|] == prefix;
    assert (prefix + rest)[|prefix|..] == rest;
  }

  /** The length of the longest prefix of s made of digits. */
  function LeadingDigits(s: string): (k: nat)
    ensures k <= |s|
    ensures forall j :: 0 <= j < k ==> IsDigit(s[j])
    ensures k < |s| ==> !IsDigit(s[k])
  {
    if s == [] || !IsDigit(s[0]) then 0 else 1 + LeadingDigits(s[1..])
  }

  /** Reads the id and the question text back out of a representation string. */
  function ParseRepr(s: string): Option<(nat, string)> {
    match DropPrefix(REPR_PREFIX, s)
    case None => None
    case Some(rest) =>
      var k := LeadingDigits(rest);
      if k == 0 then None
      else
        match DropPrefix(REPR_SEPARATOR, rest[k..])
        case None => None
        case Some(body) =>
          if body == [] || body[|body| - 1] != '>' then None
          else Some((ParseDecimal(rest[..k]), body[..|body| - 1]))
  }

  lemma {:induction false} LeadingDigitsOfNumber(d: string, tail: string)
    requires AllDigits(d)
    requires tail != [] && !IsDigit(tail[0])
    ensures LeadingDigits(d + tail) == |d|
  {
    if d != [] {
      assert (d + tail)[1..] == d[1..] + tail;
      LeadingDigitsOfNumber(d[1..], tail);
    }
  }

  /** The representation names its question unambiguously: both the id and the
      text can be read back, whatever the text contains. */
  lemma ReprRoundTrip(id: nat, q: Question)
    ensures ParseRepr(QuestionRepr(id, q)) == Some((id, q.question))
  {
    var digits := DecimalString(id);
    var body := q.question + ">";
    var tail := REPR_SEPARATOR + body;
    var rest := digits + tail;
    DropPrefixOf(REPR_PREFIX, rest);
    LeadingDigitsOfNumber(digits, tail);
    assert rest[..|digits|] == digits && rest[|digits|..] == tail;
    DropPrefixOf(REPR_SEPARATOR, body);
    assert body[..|body| - 1] == q.question;
    ParseDecimalString(id);
  }

  // ---------------------------------------------------------------------------
  // Row order: a query without ORDER BY returns rows in primary-key order

  lemma {:induction false} HasLeast(ks: set<nat>)
    requires ks != {}
    ensures exists m :: m in ks && forall k :: k in ks ==> m <= k
  {
    var x :| x in ks;
    if ks != {x} {
      HasLeast(ks - {x});
      var m :| m in ks - {x} && forall k :: k in ks - {x} ==> m <= k;
      var least := if x < m then x else m;
      forall k | k in ks
        ensures least <= k
      {
        if k != x {
          assert k in ks - {x};
        }
      }
      assert least in ks;
    } else {
      assert forall k :: k in ks ==> x <= k;
    }
  }

  function LeastKey(ks: set<nat>): (m: nat)
    requires ks != {}
    ensures m in ks && forall k :: k in ks ==> m <= k
  {
    HasLeast(ks);
    var m :| m in ks && forall k :: k in ks ==> m <= k; m
  }

  /** However many rows a table holds, some id is still free. */
  lemma FreshKeyExists(ks: set<nat>)
    ensures exists id: nat :: id !in ks
  {
    assert Bound(ks) !in ks;
  }

  /** A number larger than every key. */
  function Bound(ks: set<nat>): (b: nat)
    ensures forall k :: k in ks ==> k < b
    decreases |ks|
  {
    if ks == {} then 0
    else
      var m := LeastKey(ks);
      var rest := Bound(ks - {m});
      assert forall k :: k in ks ==> k == m || k in ks - {m};
      rest + m + 1
  }

  /** The keys of a table in ascending order, each once. */
  function SortedKeys(ks: set<nat>): (r: seq<nat>)
    ensures |r| == |ks|
    ensures forall i, j :: 0 <= i < j < |r| ==> r[i] < r[j]
    ensures forall k :: k in ks <==> k in r
    decreases |ks|
  {
    if ks == {} then []
    else
      var m := LeastKey(ks);
      [m] + SortedKeys(ks - {m})
  }
}
