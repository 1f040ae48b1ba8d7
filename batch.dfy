/** The form of `add_question`: one group of six fields per question, keyed
    `question_{i}`, `option_a_{i}`, ..., `answer_{i}`, and the validation loop
    that builds `question_data` from it. */
module Batch {
  import opened Records

  const FIELDS_PER_QUESTION := 6

  /** The number of questions the form is read as: `len(request.form) // 6`,
      the number of complete groups of six fields. */
  function BatchSize(form: map<string, string>): (n: nat)
    ensures FIELDS_PER_QUESTION * n <= |form| < FIELDS_PER_QUESTION * (n + 1)
  {
    |form| / FIELDS_PER_QUESTION
  }

  /** The six field names of a question in the form. */
  const FIELD_NAMES: set<string> := {"question", "option_a", "option_b", "option_c", "option_d", "answer"}

  /** The form key of field `name` of question i: `f'{name}_{i}'`. */
  function FieldKey(name: string, i: nat): (key: string)
    ensures |key| > |name| + 1 && key[..|name|] == name && key[|name|] == '_'
    ensures AllDigits(key[|name| + 1..])
  {
    name + "_" + DecimalString(i)
  }

  /** The digits after the underscore spell out the question's number. */
  lemma FieldKeyNumber(name: string, i: nat)
    ensures ParseDecimal(FieldKey(name, i)[|name| + 1..]) == i
  {
    assert FieldKey(name, i)[|name| + 1..] == DecimalString(i);
    ParseDecimalString(i);
  }

  /** Every field of every question has a key of its own: no two (field,
      question) pairs are read from the same form entry. */
  lemma FieldKeysDistinct(n1: string, i: nat, n2: string, j: nat)
    requires n1 in FIELD_NAMES && n2 in FIELD_NAMES
    requires FieldKey(n1, i) == FieldKey(n2, j)
    ensures n1 == n2 && i == j
  {
    var key := FieldKey(n1, i);
    assert key[..|n1|] == n1 && key[..|n2|] == n2;
    FieldKeyNumber(n1, i);
    FieldKeyNumber(n2, j);
  }

  /** A field counts as given when it is present and not the empty string
      (`request.form.get(key)` is truthy). */
  predicate Given(form: map<string, string>, key: string) {
    key in form && form[key] != ""
  }

  /** Question i of the form, if all six of its fields are given. */
  function ItemAt(form: map<string, string>, i: nat): (item: Option<Question>)
    ensures item.Some? <==>
      && Given(form, FieldKey("question", i))
      && Given(form, FieldKey("option_a", i))
      && Given(form, FieldKey("option_b", i))
      && Given(form, FieldKey("option_c", i))
      && Given(form, FieldKey("option_d", i))
      && Given(form, FieldKey("answer", i))
    ensures item.Some? ==> item.value == Question(
      form[FieldKey("question", i)],
      form[FieldKey("option_a", i)],
      form[FieldKey("option_b", i)],
      form[FieldKey("option_c", i)],
      form[FieldKey("option_d", i)],
      form[FieldKey("answer", i)])
    ensures item.Some? ==> NoEmptyField(item.value)
  {
    var keys := [FieldKey("question", i), FieldKey("option_a", i), FieldKey("option_b", i),
                 FieldKey("option_c", i), FieldKey("option_d", i), FieldKey("answer", i)];
    if forall k :: 0 <= k < |keys| ==> Given(form, keys[k]) then
      assert Given(form, keys[0]) && Given(form, keys[1]) && Given(form, keys[2]);
      assert Given(form, keys[3]) && Given(form, keys[4]) && Given(form, keys[5]);
      Some(Question(form[keys[0]], form[keys[1]], form[keys[2]], form[keys[3]], form[keys[4]], form[keys[5]]))
    else
      None
  }

  /** All six text fields of a question are non-empty. */
  predicate NoEmptyField(q: Question) {
    q.question != "" && q.optionA != "" && q.optionB != "" && q.optionC != "" && q.optionD != "" && q.answer != ""
  }

  /** The first loop of `add_question`: reads the questions of the form in
      order and gives up on the first one with a missing or empty field. The
      batch is accepted only if every question in it is complete, and then
      holds exactly one question per group of six fields, in order. */
  method CollectBatch(form: map<string, string>) returns (batch: Option<seq<Question>>)
    ensures batch.Some? <==> forall i :: 0 <= i < BatchSize(form) ==> ItemAt(form, i).Some?
    ensures batch.Some? ==> |batch.value| == BatchSize(form)
    ensures batch.Some? ==> forall i :: 0 <= i < |batch.value| ==> ItemAt(form, i) == Some(batch.value[i])
  {
    var count := |form| / FIELDS_PER_QUESTION;
    var data: seq<Question> := [];
    for i := 0 to count
      invariant |data| == i
      invariant forall j :: 0 <= j < i ==> ItemAt(form, j) == Some(data[j])
    {
      var item := ItemAt(form, i);
      if item.None? {
        return None;
      }
      data := data + [item.value];
    }
    return Some(data);
  }
}
