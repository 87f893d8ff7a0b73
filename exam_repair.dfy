/**
 * The repair pass the exam page generator runs over its input: missing
 * question fields get defaults, nested `exam` objects are repaired the same
 * way, and input without any question list gets one default question.
 */
module ExamRepair {
  import opened Wrappers
  import opened Text
  import opened Json
  import J = Json

  const PlaceholderOptions: seq<string> := ["Option A", "Option B", "Option C", "Option D"]

  /** What falsy input is replaced by. */
  const Minimal: Json := Obj([("title", Str("Test Exam")), ("description", Str("Generated exam")),
                              ("multiple_choice", Arr([])), ("open_questions", Arr([]))])

  const DefaultQuestion: Json := Obj([("question", Str("Default question")), ("type", Str("american")),
                                      ("answers", Arr(Strs(PlaceholderOptions))), ("correct_answer", Str("Option A"))])

  /** The placeholder text of the question at position `i`: "Question 1" for the first. */
  function QuestionLabel(i: nat): string {
    "Question " + NatToString(i + 1)
  }

  /** `fields[key] = value` only when `key` is missing. */
  function PutMissing(fields: seq<(string, Json)>, key: string, value: Json): (r: seq<(string, Json)>)
    ensures key in Keys(r)
    ensures forall other :: other in Keys(fields) ==> Lookup(r, other) == Lookup(fields, other)
    ensures key !in Keys(fields) ==> Lookup(r, key) == Some(value)
    ensures forall other :: other != key ==> (other in Keys(r) <==> other in Keys(fields))
  {
    if key in Keys(fields) then fields else Put(fields, key, value)
  }

  predicate IsAmericanType(fields: seq<(string, Json)>) {
    Lookup(fields, "type") == Some(Str("american"))
  }

  /**
   * One entry of `questions` (lines 293-311): a non-dict is left alone; a dict
   * gets a placeholder question, the type 'american', placeholder answers when
   * an american question has none or falsy ones, and the first answer as its
   * correct answer when it has none (which raises when the answers cannot be
   * indexed by 0).
   */
  function RepairQuestion(q: Json, i: nat): (r: Result<Json, PyError>)
    ensures !q.Obj? ==> r == Ok(q)
  {
    if !q.Obj? then Ok(q)
    else
      var f1 := PutMissing(q.fields, "question", Str(QuestionLabel(i)));
      var f2 := PutMissing(f1, "type", Str("american"));
      var american := IsAmericanType(f2);
      var f3 := if american && ("answers" !in Keys(f2) || !J.Truthy(Lookup(f2, "answers").value))
                then Put(f2, "answers", Arr(Strs(PlaceholderOptions))) else f2;
      if american && "correct_answer" !in Keys(f3) then
        match First(Lookup(f3, "answers").value)
        case Err(e) => Err(e)
        case Ok(first) => Ok(Obj(Put(f3, "correct_answer", first)))
      else Ok(Obj(f3))
  }

  /**
   * A repaired question: it has a question text and a type, and an american
   * one has truthy answers and a correct answer.
   */
  predicate QuestionShaped(q: Json) {
    q.Obj? && "question" in Keys(q.fields) && "type" in Keys(q.fields)
    && (IsAmericanType(q.fields) ==>
          "answers" in Keys(q.fields) && J.Truthy(Lookup(q.fields, "answers").value)
          && "correct_answer" in Keys(q.fields))
  }

  /**
   * A repaired dict has every field the pass adds, keeps every key it had, and
   * keeps every value except falsy answers of an american question.
   */
  lemma RepairQuestionShape(q: Json, i: nat)
    requires q.Obj? && RepairQuestion(q, i).Ok?
    ensures QuestionShaped(RepairQuestion(q, i).value) && KeepsKeys(q.fields, RepairQuestion(q, i).value)
    ensures forall key :: key in Keys(q.fields) && key != "answers" ==>
      Lookup(RepairQuestion(q, i).value.fields, key) == Lookup(q.fields, key)
    ensures "answers" in Keys(q.fields) && J.Truthy(Lookup(q.fields, "answers").value) ==>
      Lookup(RepairQuestion(q, i).value.fields, "answers") == Lookup(q.fields, "answers")
  {
    var f1 := PutMissing(q.fields, "question", Str(QuestionLabel(i)));
    var f2 := PutMissing(f1, "type", Str("american"));
    var american := IsAmericanType(f2);
    var f3 := if american && ("answers" !in Keys(f2) || !J.Truthy(Lookup(f2, "answers").value))
              then Put(f2, "answers", Arr(Strs(PlaceholderOptions))) else f2;
    assert american ==> "answers" in Keys(f3) && J.Truthy(Lookup(f3, "answers").value);
    assert Lookup(f3, "type") == Lookup(f2, "type");
    var r := RepairQuestion(q, i).value;
    if american && "correct_answer" !in Keys(f3) {
      assert r.fields == Put(f3, "correct_answer", First(Lookup(f3, "answers").value).value);
    } else {
      assert r.fields == f3;
    }
  }

  /**
   * The only way a question entry makes the pass fail: an american dict without
   * a correct answer whose answers are truthy but neither a list nor a string,
   * so that `answers[0]` raises.
   */
  lemma RepairQuestionFails(q: Json, i: nat)
    ensures RepairQuestion(q, i).Err? <==>
      q.Obj? && IsAmericanType(PutMissing(q.fields, "type", Str("american")))
      && "correct_answer" !in Keys(q.fields)
      && "answers" in Keys(q.fields)
      && var answers := Lookup(q.fields, "answers").value;
         J.Truthy(answers) && !answers.Arr? && !answers.Str?
  {
    if q.Obj? {
      var f1 := PutMissing(q.fields, "question", Str(QuestionLabel(i)));
      var f2 := PutMissing(f1, "type", Str("american"));
      assert Lookup(f2, "type") == Lookup(PutMissing(q.fields, "type", Str("american")), "type");
    }
  }

  /** A missing correct answer of an american question given as a list becomes its first answer. */
  lemma DefaultCorrectAnswer(q: Json, i: nat)
    requires q.Obj? && Lookup(q.fields, "type") == Some(Str("american")) && "correct_answer" !in Keys(q.fields)
    requires "answers" in Keys(q.fields) && Lookup(q.fields, "answers").value.Arr?
    requires |Lookup(q.fields, "answers").value.items| > 0
    ensures RepairQuestion(q, i).Ok?
    ensures Lookup(RepairQuestion(q, i).value.fields, "correct_answer") == Some(Lookup(q.fields, "answers").value.items[0])
  {
    var f1 := PutMissing(q.fields, "question", Str(QuestionLabel(i)));
    var f2 := PutMissing(f1, "type", Str("american"));
    assert Lookup(f2, "answers") == Lookup(q.fields, "answers");
  }

  /** The entries of `questions` repaired in order; the first error stops the pass. */
  function RepairQuestions(items: seq<Json>): (r: Result<seq<Json>, PyError>)
    ensures r.Ok? ==> |r.value| == |items|
    decreases |items|
  {
    if |items| == 0 then Ok([])
    else
      match RepairQuestions(items[..|items| - 1])
      case Err(e) => Err(e)
      case Ok(before) =>
        match RepairQuestion(items[|items| - 1], |items| - 1)
        case Err(e) => Err(e)
        case Ok(q) => Ok(before + [q])
  }

  /** One entry of `multiple_choice` (lines 319-329): placeholder question and options, never an error. */
  function RepairChoice(q: Json, i: nat): (r: Json)
    ensures !q.Obj? ==> r == q
    ensures q.Obj? ==> r.Obj? && "question" in Keys(r.fields)
    ensures q.Obj? ==> "options" in Keys(r.fields) || "answers" in Keys(r.fields)
    ensures q.Obj? ==> forall key :: key in Keys(q.fields) ==> Lookup(r.fields, key) == Lookup(q.fields, key)
  {
    if !q.Obj? then q
    else
      var f1 := PutMissing(q.fields, "question", Str(QuestionLabel(i)));
      if "options" !in Keys(f1) && "answers" !in Keys(f1) then Obj(Put(f1, "options", Arr(Strs(PlaceholderOptions))))
      else Obj(f1)
  }

  function RepairChoices(items: seq<Json>): (r: seq<Json>)
    ensures |r| == |items| && forall k :: 0 <= k < |items| ==> r[k] == RepairChoice(items[k], k)
  {
    seq(|items|, k requires 0 <= k < |items| => RepairChoice(items[k], k))
  }

  /** The position of `key` among the fields. */
  function IndexOf(fields: seq<(string, Json)>, key: string): (r: Option<nat>)
    ensures r.Some? <==> key in Keys(fields)
    ensures r.Some? ==> r.value < |fields| && fields[r.value].0 == key && Lookup(fields, key) == Some(fields[r.value].1)
    decreases |fields|
  {
    if |fields| == 0 then None
    else if fields[0].0 == key then Some(0)
    else match IndexOf(fields[1..], key)
      case None => None
      case Some(k) => Some(k + 1)
  }

  predicate HasList(fields: seq<(string, Json)>, key: string) {
    Lookup(fields, key).Some? && Lookup(fields, key).value.Arr?
  }

  /** The `questions` loop (lines 288-311), run only when `questions` is a list. */
  function QuestionsStep(fields: seq<(string, Json)>): (r: Result<seq<(string, Json)>, PyError>)
    ensures !HasList(fields, "questions") ==> r == Ok(fields)
  {
    if HasList(fields, "questions") then
      match RepairQuestions(Lookup(fields, "questions").value.items)
      case Err(e) => Err(e)
      case Ok(out) => Ok(Put(fields, "questions", Arr(out)))
    else Ok(fields)
  }

  /** The `multiple_choice` loop (lines 314-329), run only when `multiple_choice` is a list. */
  function ChoicesStep(fields: seq<(string, Json)>): (r: seq<(string, Json)>)
    ensures !HasList(fields, "multiple_choice") ==> r == fields
  {
    if HasList(fields, "multiple_choice") then
      Put(fields, "multiple_choice", Arr(RepairChoices(Lookup(fields, "multiple_choice").value.items)))
    else fields
  }

  /** The `questions` loop touches no other key, drops no key, and leaves a list a list. */
  lemma QuestionsStepKeeps(fields: seq<(string, Json)>)
    requires QuestionsStep(fields).Ok?
    ensures var r := QuestionsStep(fields).value;
      && (forall key :: key != "questions" ==> Lookup(r, key) == Lookup(fields, key))
      && (forall key :: key in Keys(fields) ==> key in Keys(r))
      && HasList(r, "questions") == HasList(fields, "questions")
  {
  }

  /** The `multiple_choice` loop touches no other key, drops no key, and leaves a list a list. */
  lemma ChoicesStepKeeps(fields: seq<(string, Json)>)
    ensures var r := ChoicesStep(fields);
      && (forall key :: key != "multiple_choice" ==> Lookup(r, key) == Lookup(fields, key))
      && (forall key :: key in Keys(fields) ==> key in Keys(r))
      && HasList(r, "multiple_choice") == HasList(fields, "multiple_choice")
  {
  }

  /**
   * `validate_and_repair_json`: falsy input becomes the minimal structure; any
   * other non-dict raises TypeError (indexing or assigning a key of a list,
   * string or number); a dict has its `questions` and `multiple_choice` lists
   * repaired in place and its `exam` dict repaired recursively, and receives one
   * default question when it has none of the three.
   */
  function Repair(data: Json): (r: Result<Json, PyError>)
    ensures !J.Truthy(data) ==> r == Ok(Minimal)
    ensures J.Truthy(data) && !data.Obj? ==> r == Err(TypeError)
    ensures r.Ok? ==> r.value.Obj?
    decreases data
  {
    if !J.Truthy(data) then Ok(Minimal)
    else if !data.Obj? then Err(TypeError)
    else
      var examAt := IndexOf(data.fields, "exam");
      var hasExam := examAt.Some? && data.fields[examAt.value].1.Obj?;
      RepairFields(data.fields, hasExam, if hasExam then Repair(data.fields[examAt.value].1) else Ok(Null))
  }

  /**
   * The dict branch of the pass, given whether there is a nested exam dict and
   * what repairing it gave: an error of the `questions` loop comes first, then
   * one of the nested exam.
   */
  function RepairFields(fields: seq<(string, Json)>, hasExam: bool, exam: Result<Json, PyError>): (r: Result<Json, PyError>)
    ensures r.Ok? ==> r.value.Obj?
  {
    var f1 := QuestionsStep(fields);
    if f1.Err? then Err(f1.error)
    else
      var f2 := ChoicesStep(f1.value);
      if exam.Err? then Err(exam.error)
      else
        var f3 := if hasExam then Put(f2, "exam", exam.value) else f2;
        if HasList(fields, "questions") || HasList(f1.value, "multiple_choice") || hasExam then Ok(Obj(f3))
        else Ok(Obj(Put(f3, "questions", Arr([DefaultQuestion]))))
  }

  /**
   * A repaired exam always has some question structure, and a repaired dict
   * keeps every key it had.
   */
  lemma {:induction false} RepairShape(data: Json)
    requires Repair(data).Ok?
    ensures HasStructure(Repair(data).value)
    ensures data.Obj? && J.Truthy(data) ==> KeepsKeys(data.fields, Repair(data).value)
    decreases data
  {
    if !J.Truthy(data) {
      MinimalShape();
      return;
    }
    var f1 := QuestionsStep(data.fields).value;
    QuestionsStepKeeps(data.fields);
    var f2 := ChoicesStep(f1);
    ChoicesStepKeeps(f1);
    var examAt := IndexOf(data.fields, "exam");
    var hasExam := examAt.Some? && data.fields[examAt.value].1.Obj?;
    var exam := if hasExam then Repair(data.fields[examAt.value].1) else Ok(Null);
    var f3 := if hasExam then Put(f2, "exam", exam.value) else f2;
    var added := !HasList(data.fields, "questions") && !HasList(f1, "multiple_choice") && !hasExam;
    var g := Repair(data).value.fields;
    assert g == if added then Put(f3, "questions", Arr([DefaultQuestion])) else f3;
    assert forall key :: key != "exam" ==> Lookup(f3, key) == Lookup(f2, key);
    assert forall key :: key in Keys(f2) ==> key in Keys(f3);
    if added {
      assert Lookup(g, "questions") == Some(Arr([DefaultQuestion]));
    } else if HasList(data.fields, "questions") {
      assert Lookup(g, "questions") == Lookup(f1, "questions");
    } else if HasList(f1, "multiple_choice") {
      assert Lookup(g, "multiple_choice") == Lookup(f2, "multiple_choice");
    } else {
      assert Lookup(g, "exam") == Some(exam.value);
    }
  }

  lemma MinimalShape()
    ensures HasStructure(Minimal)
  {
    var f := Minimal.fields;
    assert Lookup(f[2..], "multiple_choice") == Some(Arr([]));
    assert Lookup(f[1..], "multiple_choice") == Lookup(f[2..], "multiple_choice");
  }

  /** Every key the input object has, the repaired object still has. */
  predicate KeepsKeys(before: seq<(string, Json)>, after: Json) {
    after.Obj? && forall key :: key in Keys(before) ==> key in Keys(after.fields)
  }

  /** The repaired exam always holds some question structure the page generator can read. */
  predicate HasStructure(j: Json) {
    j.Obj? &&
    ((Lookup(j.fields, "questions").Some? && Lookup(j.fields, "questions").value.Arr?)
     || (Lookup(j.fields, "multiple_choice").Some? && Lookup(j.fields, "multiple_choice").value.Arr?)
     || (Lookup(j.fields, "exam").Some? && Lookup(j.fields, "exam").value.Obj?))
  }

  /**
   * The outcome of `validate_and_repair_json`, loop by loop: the `questions`
   * entries, then the `multiple_choice` entries, then the nested exam.
   */
  method ValidateAndRepair(data: Json) returns (r: Result<Json, PyError>)
    ensures r == Repair(data)
    decreases data
  {
    if !J.Truthy(data) {
      return Ok(Minimal);
    }
    if !data.Obj? {
      return Err(TypeError);
    }
    var fields := data.fields;
    var hasQuestions := HasList(fields, "questions");
    if hasQuestions {
      var out := RepairQuestionList(Lookup(fields, "questions").value.items);
      if out.Err? {
        return Err(out.error);
      }
      fields := Put(fields, "questions", Arr(out.value));
    }
    var hasChoices := HasList(fields, "multiple_choice");
    if hasChoices {
      var out := RepairChoiceList(Lookup(fields, "multiple_choice").value.items);
      fields := Put(fields, "multiple_choice", Arr(out));
    }
    var examAt := IndexOf(data.fields, "exam");
    var hasExam := examAt.Some? && data.fields[examAt.value].1.Obj?;
    if hasExam {
      var exam := ValidateAndRepair(data.fields[examAt.value].1);
      if exam.Err? {
        return Err(exam.error);
      }
      fields := Put(fields, "exam", exam.value);
    }
    if !hasQuestions && !hasChoices && !hasExam {
      fields := Put(fields, "questions", Arr([DefaultQuestion]));
    }
    r := Ok(Obj(fields));
  }

  /** The loop over `questions` (lines 288-311). */
  method RepairQuestionList(items: seq<Json>) returns (r: Result<seq<Json>, PyError>)
    ensures r == RepairQuestions(items)
  {
    var out: seq<Json> := [];
    var i := 0;
    while i < |items|
      invariant 0 <= i <= |items|
      invariant RepairQuestions(items[..i]) == Ok(out)
    {
      assert items[..i + 1][..i] == items[..i];
      var q := RepairQuestion(items[i], i);
      if q.Err? {
        ErrorStops(items, i + 1);
        return Err(q.error);
      }
      out := out + [q.value];
      i := i + 1;
    }
    assert items[..i] == items;
    r := Ok(out);
  }

  /** The loop over `multiple_choice` (lines 314-329). */
  method RepairChoiceList(items: seq<Json>) returns (out: seq<Json>)
    ensures out == RepairChoices(items)
  {
    out := [];
    var i := 0;
    while i < |items|
      invariant 0 <= i <= |items|
      invariant |out| == i && forall k :: 0 <= k < i ==> out[k] == RepairChoice(items[k], k)
    {
      out := out + [RepairChoice(items[i], i)];
      i := i + 1;
    }
  }

  /** An error in a prefix of `questions` is the error of the whole pass. */
  lemma {:induction false} ErrorStops(items: seq<Json>, n: nat)
    requires n <= |items| && RepairQuestions(items[..n]).Err?
    ensures RepairQuestions(items) == RepairQuestions(items[..n])
    decreases |items| - n
  {
    if n < |items| {
      var init := items[..|items| - 1];
      assert init[..n] == items[..n];
      ErrorStops(init, n);
    } else {
      assert items[..n] == items;
    }
  }

  /** The repaired list holds, at each position, the repair of the entry at that position. */
  lemma {:induction false} RepairQuestionsPointwise(items: seq<Json>, out: seq<Json>)
    requires RepairQuestions(items) == Ok(out)
    ensures |out| == |items| && forall k :: 0 <= k < |items| ==> RepairQuestion(items[k], k) == Ok(out[k])
    decreases |items|
  {
    if |items| > 0 {
      var init := items[..|items| - 1];
      var before := RepairQuestions(init).value;
      RepairQuestionsPointwise(init, before);
      assert out == before + [out[|out| - 1]];
      forall k | 0 <= k < |items|
        ensures RepairQuestion(items[k], k) == Ok(out[k])
      {
        if k < |items| - 1 {
          assert items[k] == init[k];
        }
      }
    }
  }

  /** Writing back the value a key already holds changes nothing. */
  lemma {:induction false} PutExisting(fields: seq<(string, Json)>, key: string, value: Json)
    requires Lookup(fields, key) == Some(value)
    ensures Put(fields, key, value) == fields
    decreases |fields|
  {
    if fields[0].0 != key {
      PutExisting(fields[1..], key, value);
    }
  }

  /** A question that already has every field the pass adds is left as it is. */
  lemma ShapedQuestionFixed(q: Json, i: nat)
    requires QuestionShaped(q)
    ensures RepairQuestion(q, i) == Ok(q)
  {
  }

  /** A list whose entries are each left as they are is left as it is. */
  lemma {:induction false} FixedQuestionsFixed(items: seq<Json>)
    requires forall k :: 0 <= k < |items| ==> RepairQuestion(items[k], k) == Ok(items[k])
    ensures RepairQuestions(items) == Ok(items)
    decreases |items|
  {
    if |items| > 0 {
      var n := |items| - 1;
      var init := items[..n];
      assert init + [items[n]] == items;
      assert forall k :: 0 <= k < n ==> init[k] == items[k];
      FixedQuestionsFixed(init);
      assert RepairQuestion(items[n], n) == Ok(items[n]);
    }
  }

  lemma RepairQuestionsIdempotent(items: seq<Json>, out: seq<Json>)
    requires RepairQuestions(items) == Ok(out)
    ensures RepairQuestions(out) == Ok(out)
  {
    RepairQuestionsPointwise(items, out);
    forall k | 0 <= k < |out|
      ensures RepairQuestion(out[k], k) == Ok(out[k])
    {
      if items[k].Obj? {
        RepairQuestionShape(items[k], k);
        ShapedQuestionFixed(out[k], k);
      }
    }
    FixedQuestionsFixed(out);
  }

  lemma RepairChoicesIdempotent(items: seq<Json>)
    ensures RepairChoices(RepairChoices(items)) == RepairChoices(items)
  {
    var once := RepairChoices(items);
    forall k | 0 <= k < |once|
      ensures RepairChoice(once[k], k) == once[k]
    {
    }
  }

  lemma MinimalFixed()
    ensures Repair(Minimal) == Ok(Minimal)
  {
    var f := Minimal.fields;
    assert Lookup(f[3..], "questions") == None && Lookup(f[3..], "exam") == None;
    assert Lookup(f[2..], "multiple_choice") == Some(Arr([]));
    assert Lookup(f[2..], "questions") == None && Lookup(f[2..], "exam") == None;
    assert Lookup(f[1..], "multiple_choice") == Lookup(f[2..], "multiple_choice");
    assert Lookup(f[1..], "questions") == None && Lookup(f[1..], "exam") == None;
    assert Lookup(f, "multiple_choice") == Lookup(f[1..], "multiple_choice");
    assert Lookup(f, "questions") == None && Lookup(f, "exam") == None;
    assert RepairChoices([]) == [];
    FixedFieldsFixed(Minimal);
  }

  /** An object on which every step of the pass finds nothing to do. */
  predicate RepairFixedFields(g: seq<(string, Json)>) {
    && |g| > 0
    && HasStructure(Obj(g))
    && (var qs := Lookup(g, "questions"); qs.Some? && qs.value.Arr? ==> RepairQuestions(qs.value.items) == Ok(qs.value.items))
    && (var mc := Lookup(g, "multiple_choice"); mc.Some? && mc.value.Arr? ==> RepairChoices(mc.value.items) == mc.value.items)
    && (var e := Lookup(g, "exam"); e.Some? && e.value.Obj? ==> Repair(e.value) == Ok(e.value))
  }

  lemma FixedFieldsFixed(data: Json)
    requires data.Obj? && RepairFixedFields(data.fields)
    ensures Repair(data) == Ok(data)
  {
    var g := data.fields;
    QuestionsStepUnchanged(g);
    ChoicesStepUnchanged(g);
    var e := Lookup(g, "exam");
    var examAt := IndexOf(g, "exam");
    if e.Some? && e.value.Obj? {
      assert g[examAt.value].1 == e.value;
      PutExisting(g, "exam", e.value);
    }
  }

  lemma QuestionsStepUnchanged(g: seq<(string, Json)>)
    requires var qs := Lookup(g, "questions"); qs.Some? && qs.value.Arr? ==> RepairQuestions(qs.value.items) == Ok(qs.value.items)
    ensures QuestionsStep(g) == Ok(g)
  {
    var qs := Lookup(g, "questions");
    if qs.Some? && qs.value.Arr? {
      PutExisting(g, "questions", qs.value);
    }
  }

  lemma ChoicesStepUnchanged(g: seq<(string, Json)>)
    requires var mc := Lookup(g, "multiple_choice"); mc.Some? && mc.value.Arr? ==> RepairChoices(mc.value.items) == mc.value.items
    ensures ChoicesStep(g) == g
  {
    var mc := Lookup(g, "multiple_choice");
    if mc.Some? && mc.value.Arr? {
      PutExisting(g, "multiple_choice", mc.value);
    }
  }

  lemma QuestionsStepFixed(fields: seq<(string, Json)>)
    requires QuestionsStep(fields).Ok?
    ensures var g := QuestionsStep(fields).value;
      HasList(g, "questions") ==> RepairQuestions(Lookup(g, "questions").value.items) == Ok(Lookup(g, "questions").value.items)
  {
    if HasList(fields, "questions") {
      var items := Lookup(fields, "questions").value.items;
      RepairQuestionsIdempotent(items, RepairQuestions(items).value);
    }
  }

  lemma ChoicesStepFixed(fields: seq<(string, Json)>)
    ensures var g := ChoicesStep(fields);
      HasList(g, "multiple_choice") ==> RepairChoices(Lookup(g, "multiple_choice").value.items) == Lookup(g, "multiple_choice").value.items
  {
    if HasList(fields, "multiple_choice") {
      RepairChoicesIdempotent(Lookup(fields, "multiple_choice").value.items);
    }
  }

  lemma DefaultQuestionFixed()
    ensures RepairQuestions([DefaultQuestion]) == Ok([DefaultQuestion])
  {
    DefaultQuestionShaped();
    ShapedQuestionFixed(DefaultQuestion, 0);
    FixedQuestionsFixed([DefaultQuestion]);
  }

  /** The default question already has every field the pass adds. */
  lemma DefaultQuestionShaped()
    ensures QuestionShaped(DefaultQuestion)
  {
    var f := DefaultQuestion.fields;
    assert Lookup(f[3..], "correct_answer").Some?;
    assert Lookup(f[2..], "answers") == Some(Arr(Strs(PlaceholderOptions)));
    assert Lookup(f[2..], "correct_answer") == Lookup(f[3..], "correct_answer");
    assert Lookup(f[1..], "type") == Some(Str("american"));
    assert Lookup(f[1..], "answers") == Lookup(f[2..], "answers");
    assert Lookup(f[1..], "correct_answer") == Lookup(f[2..], "correct_answer");
    assert Lookup(f, "question").Some?;
    assert Lookup(f, "type") == Lookup(f[1..], "type");
    assert Lookup(f, "answers") == Lookup(f[1..], "answers");
    assert Lookup(f, "correct_answer") == Lookup(f[1..], "correct_answer");
    assert Strs(PlaceholderOptions) != [];
  }

  /**
   * Repairing a repaired exam changes nothing: whatever the pass adds is
   * exactly what it checks for.
   */
  lemma {:induction false} RepairIdempotent(data: Json)
    requires Repair(data).Ok?
    ensures Repair(Repair(data).value) == Repair(data)
    decreases data
  {
    if !J.Truthy(data) {
      MinimalFixed();
      return;
    }
    var f1 := QuestionsStep(data.fields).value;
    var f2 := ChoicesStep(f1);
    var examAt := IndexOf(data.fields, "exam");
    var hasExam := examAt.Some? && data.fields[examAt.value].1.Obj?;
    var exam := if hasExam then Repair(data.fields[examAt.value].1) else Ok(Null);
    var f3 := if hasExam then Put(f2, "exam", exam.value) else f2;
    var added := !HasList(data.fields, "questions") && !HasList(f1, "multiple_choice") && !hasExam;
    var g := Repair(data).value.fields;
    assert g == if added then Put(f3, "questions", Arr([DefaultQuestion])) else f3;
    RepairShape(data);
    QuestionsStepKeeps(data.fields);
    ChoicesStepKeeps(f1);
    QuestionsStepFixed(data.fields);
    ChoicesStepFixed(f1);
    if added {
      assert Lookup(g, "questions") == Some(Arr([DefaultQuestion]));
      DefaultQuestionFixed();
    } else {
      assert Lookup(g, "questions") == Lookup(f1, "questions");
    }
    assert Lookup(g, "multiple_choice") == Lookup(f2, "multiple_choice");
    if hasExam {
      RepairIdempotent(data.fields[examAt.value].1);
      assert Lookup(g, "exam") == Some(exam.value);
    } else {
      assert Lookup(g, "exam") == Lookup(data.fields, "exam");
    }
    assert RepairFixedFields(g);
    FixedFieldsFixed(Repair(data).value);
  }

}
