/**
 * The exam page generator: the question lists it finds in the repaired exam,
 * the normalisation of a flat `questions` list into multiple-choice and open
 * questions, and the page it builds from them. The page is modelled by its
 * structure (heading, description, one block per rendered question); the
 * surrounding template text is not.
 */
module TestHtml {
  import opened Wrappers
  import opened Text
  import opened Json
  import J = Json

  /** The heading of the page template, "exam" in Hebrew. */
  const DefaultHeading: string := "מבחן"

  const SeeGuide: string := "See solution guide"

  // ----- Finding the question list (lines 13-28) -----

  /**
   * `questions_list`: the `questions` list of the exam, else the `questions`
   * list of its `exam` entry, else nothing. Testing `'questions' in exam`
   * raises for an `exam` that is not a container, and reading
   * `exam['questions']` raises for one that is a list or a string.
   */
  function SelectQuestions(fields: seq<(string, Json)>): (r: Result<seq<Json>, PyError>)
    ensures Lookup(fields, "questions").Some? && Lookup(fields, "questions").value.Arr? ==>
      r == Ok(Lookup(fields, "questions").value.items)
    ensures "questions" !in Keys(fields) && "exam" !in Keys(fields) ==> r == Ok([])
  {
    var questions := Lookup(fields, "questions");
    if questions.Some? && questions.value.Arr? then Ok(questions.value.items)
    else if "exam" in Keys(fields) then
      var exam := Lookup(fields, "exam").value;
      match In("questions", exam)
      case Err(e) => Err(e)
      case Ok(found) =>
        if !found then Ok([])
        else match GetItem(exam, "questions")
          case Err(e) => Err(e)
          case Ok(v) => Ok(if v.Arr? then v.items else [])
    else Ok([])
  }

  // ----- Normalisation (lines 31-55) -----

  /** Where one entry of the question list goes. */
  datatype Sorted = ToChoice(entry: Json) | ToOpen(entry: Json) | Dropped

  /**
   * One entry: an american dict with a question and answers becomes a
   * multiple-choice entry whose answer is its correct answer or else its first
   * answer (`answers[0]` is evaluated even when the correct answer is there, so
   * answers that cannot be indexed raise); an open dict becomes an open entry
   * (reading a missing question raises KeyError); anything else is dropped.
   */
  function NormaliseEntry(q: Json): (r: Result<Sorted, PyError>)
    ensures r.Ok? && r.value.ToChoice? ==>
      q.Obj? && Lookup(q.fields, "type") == Some(Str("american"))
      && "question" in Keys(q.fields) && "answers" in Keys(q.fields)
    ensures r.Ok? && r.value.ToOpen? ==> q.Obj? && Lookup(q.fields, "type") == Some(Str("open"))
    ensures r.Err? ==> q.Obj? && "type" in Keys(q.fields)
  {
    if !q.Obj? || "type" !in Keys(q.fields) then Ok(Dropped)
    else
      var t := Lookup(q.fields, "type").value;
      if t == Str("american") then
        if "question" in Keys(q.fields) && "answers" in Keys(q.fields) then
          var answers := Lookup(q.fields, "answers").value;
          match First(answers)
          case Err(e) => Err(e)
          case Ok(first) =>
            Ok(ToChoice(Obj([("question", Lookup(q.fields, "question").value), ("options", answers),
                             ("answer", Lookup(q.fields, "correct_answer").GetOr(first))])))
        else Ok(Dropped)
      else if t == Str("open") then
        if "question" !in Keys(q.fields) then Err(KeyError)
        else Ok(ToOpen(Obj([("question", Lookup(q.fields, "question").value),
                            ("answer", Lookup(q.fields, "answer").GetOr(Str(SeeGuide)))])))
      else Ok(Dropped)
  }

  /** The three fields of a multiple-choice entry, read back. */
  lemma ChoiceEntryFields(q: Json)
    requires NormaliseEntry(q).Ok? && NormaliseEntry(q).value.ToChoice?
    ensures var e := NormaliseEntry(q).value.entry;
      var answers := Lookup(q.fields, "answers").value;
      && e.Obj?
      && Lookup(e.fields, "question") == Lookup(q.fields, "question")
      && Lookup(e.fields, "options") == Some(answers)
      && First(answers).Ok?
      && Lookup(e.fields, "answer") == Some(Lookup(q.fields, "correct_answer").GetOr(First(answers).value))
  {
    var e := NormaliseEntry(q).value.entry;
    assert Lookup(e.fields[2..], "answer").Some?;
    assert Lookup(e.fields[1..], "answer") == Lookup(e.fields[2..], "answer");
  }

  /** The two fields of an open entry: the answer defaults to the solution-guide text. */
  lemma OpenEntryFields(q: Json)
    requires NormaliseEntry(q).Ok? && NormaliseEntry(q).value.ToOpen?
    ensures var e := NormaliseEntry(q).value.entry;
      && e.Obj?
      && Lookup(e.fields, "question") == Lookup(q.fields, "question")
      && Lookup(e.fields, "answer") == Some(Lookup(q.fields, "answer").GetOr(Str(SeeGuide)))
  {
    var e := NormaliseEntry(q).value.entry;
    assert Lookup(e.fields[1..], "answer").Some?;
  }

  /** An open dict without a question stops the normalisation with KeyError. */
  lemma OpenWithoutQuestion(q: Json)
    requires q.Obj? && Lookup(q.fields, "type") == Some(Str("open")) && "question" !in Keys(q.fields)
    ensures NormaliseEntry(q) == Err(KeyError)
  {
    assert Str("open") != Str("american");
  }

  /** The loop over the list: entries sorted in order; the first error stops it. */
  function NormaliseAll(qs: seq<Json>): (r: Result<(seq<Json>, seq<Json>), PyError>)
    decreases |qs|
  {
    if |qs| == 0 then Ok(([], []))
    else
      match NormaliseAll(qs[..|qs| - 1])
      case Err(e) => Err(e)
      case Ok(lists) =>
        match NormaliseEntry(qs[|qs| - 1])
        case Err(e) => Err(e)
        case Ok(ToChoice(entry)) => Ok((lists.0 + [entry], lists.1))
        case Ok(ToOpen(entry)) => Ok((lists.0, lists.1 + [entry]))
        case Ok(Dropped) => Ok(lists)
  }

  predicate GoesToChoice(q: Json) {
    NormaliseEntry(q).Ok? && NormaliseEntry(q).value.ToChoice?
  }

  predicate GoesToOpen(q: Json) {
    NormaliseEntry(q).Ok? && NormaliseEntry(q).value.ToOpen?
  }

  /** The positions, in order, of the entries of `qs` that satisfy `p`. */
  function Positions(qs: seq<Json>, p: Json -> bool): (ks: seq<nat>)
    ensures forall m :: 0 <= m < |ks| ==> ks[m] < |qs| && p(qs[ks[m]])
    decreases |qs|
  {
    if |qs| == 0 then []
    else
      var init := qs[..|qs| - 1];
      var before := Positions(init, p);
      assert forall m :: 0 <= m < |before| ==> qs[before[m]] == init[before[m]];
      if p(qs[|qs| - 1]) then before + [|qs| - 1] else before
  }

  /** Positions in a growing prefix: the next entry's position is added when it qualifies. */
  lemma PositionsSnoc(qs: seq<Json>, i: nat, p: Json -> bool)
    requires i < |qs|
    ensures Positions(qs[..i + 1], p) == Positions(qs[..i], p) + (if p(qs[i]) then [i] else [])
  {
    assert qs[..i + 1][..i] == qs[..i];
  }

  /** The positions are exactly the entries satisfying `p`, each once and in increasing order. */
  lemma {:induction false} PositionsExact(qs: seq<Json>, p: Json -> bool)
    ensures forall m, n :: 0 <= m < n < |Positions(qs, p)| ==> Positions(qs, p)[m] < Positions(qs, p)[n]
    ensures forall k :: 0 <= k < |qs| && p(qs[k]) ==> k in Positions(qs, p)
    decreases |qs|
  {
    if |qs| > 0 {
      var init := qs[..|qs| - 1];
      PositionsExact(init, p);
      forall k | 0 <= k < |qs| - 1 && p(qs[k])
        ensures k in Positions(init, p)
      {
        assert qs[k] == init[k];
      }
    }
  }

  /** One step of the loop: the last entry goes to the end of its list. */
  lemma NormaliseStep(qs: seq<Json>)
    requires |qs| > 0 && NormaliseAll(qs).Ok?
    ensures NormaliseAll(qs[..|qs| - 1]).Ok? && NormaliseEntry(qs[|qs| - 1]).Ok?
    ensures var before := NormaliseAll(qs[..|qs| - 1]).value;
      var last := qs[|qs| - 1];
      && NormaliseAll(qs).value.0 == before.0 + (if GoesToChoice(last) then [NormaliseEntry(last).value.entry] else [])
      && NormaliseAll(qs).value.1 == before.1 + (if GoesToOpen(last) then [NormaliseEntry(last).value.entry] else [])
  {
  }

  /**
   * Normalisation keeps the order: the multiple-choice list holds the entries
   * built from the american dicts with a question and answers, in list order,
   * and nothing else.
   */
  lemma {:induction false} ChoicesInOrder(qs: seq<Json>)
    requires NormaliseAll(qs).Ok?
    ensures var choices := Positions(qs, GoesToChoice);
      var lists := NormaliseAll(qs).value;
      |lists.0| == |choices|
      && forall m :: 0 <= m < |choices| ==> lists.0[m] == NormaliseEntry(qs[choices[m]]).value.entry
    decreases |qs|
  {
    if |qs| > 0 {
      var init := qs[..|qs| - 1];
      ChoicesInOrder(init);
      NormaliseStep(qs);
      var choices := Positions(init, GoesToChoice);
      assert forall m :: 0 <= m < |choices| ==> qs[choices[m]] == init[choices[m]];
    }
  }

  /** Likewise the open list holds the entries built from the open dicts, in list order. */
  lemma {:induction false} OpensInOrder(qs: seq<Json>)
    requires NormaliseAll(qs).Ok?
    ensures var opens := Positions(qs, GoesToOpen);
      var lists := NormaliseAll(qs).value;
      |lists.1| == |opens|
      && forall m :: 0 <= m < |opens| ==> lists.1[m] == NormaliseEntry(qs[opens[m]]).value.entry
    decreases |qs|
  {
    if |qs| > 0 {
      var init := qs[..|qs| - 1];
      OpensInOrder(init);
      NormaliseStep(qs);
      var opens := Positions(init, GoesToOpen);
      assert forall m :: 0 <= m < |opens| ==> qs[opens[m]] == init[opens[m]];
    }
  }

  /** An error in a prefix of the list is the error of the whole loop. */
  lemma {:induction false} NormaliseErrorStops(qs: seq<Json>, n: nat)
    requires n <= |qs| && NormaliseAll(qs[..n]).Err?
    ensures NormaliseAll(qs) == NormaliseAll(qs[..n])
    decreases |qs| - n
  {
    if n < |qs| {
      var init := qs[..|qs| - 1];
      assert init[..n] == qs[..n];
      NormaliseErrorStops(init, n);
    } else {
      assert qs[..n] == qs;
    }
  }

  /** The normalisation loop, appending to the two lists. */
  method NormaliseQuestions(qs: seq<Json>) returns (r: Result<(seq<Json>, seq<Json>), PyError>)
    ensures r == NormaliseAll(qs)
  {
    var choices: seq<Json> := [];
    var opens: seq<Json> := [];
    var i := 0;
    while i < |qs|
      invariant 0 <= i <= |qs|
      invariant NormaliseAll(qs[..i]) == Ok((choices, opens))
    {
      assert qs[..i + 1][..i] == qs[..i];
      var sorted := NormaliseEntry(qs[i]);
      if sorted.Err? {
        NormaliseErrorStops(qs, i + 1);
        return Err(sorted.error);
      }
      match sorted.value {
        case ToChoice(entry) => choices := choices + [entry];
        case ToOpen(entry) => opens := opens + [entry];
        case Dropped =>
      }
      i := i + 1;
    }
    assert qs[..i] == qs;
    r := Ok((choices, opens));
  }

  // ----- The data the page is built from (lines 31-61) -----

  /** The normalised lists, or None when no question list was found or it was empty. */
  function Normalised(fields: seq<(string, Json)>): Result<Option<(seq<Json>, seq<Json>)>, PyError> {
    match SelectQuestions(fields)
    case Err(e) => Err(e)
    case Ok(qs) =>
      if |qs| == 0 then Ok(None)
      else match NormaliseAll(qs)
        case Err(e) => Err(e)
        case Ok(lists) => Ok(Some(lists))
  }

  /**
   * The data as the code builds it: after normalisation the exam is replaced by
   * a dict holding only the two lists, and the lines meant to carry the title
   * and description over test that new dict, so they carry nothing. A non-dict
   * raises AttributeError at `data.keys()`.
   */
  function PreparedAsWritten(data: Json): Result<Json, PyError> {
    if !data.Obj? then Err(AttributeError)
    else match Normalised(data.fields)
      case Err(e) => Err(e)
      case Ok(None) => Ok(data)
      case Ok(Some(lists)) => Ok(Obj([("multiple_choice", Arr(lists.0)), ("open_questions", Arr(lists.1))]))
  }

  /** `fields[key] = source[key]` when the source has `key`. */
  function CarryOver(source: seq<(string, Json)>, fields: seq<(string, Json)>, key: string): (r: seq<(string, Json)>)
    ensures Lookup(r, key) == (if key in Keys(source) then Lookup(source, key) else Lookup(fields, key))
    ensures forall other :: other != key ==> Lookup(r, other) == Lookup(fields, other)
  {
    if key in Keys(source) then Put(fields, key, Lookup(source, key).value) else fields
  }

  /** The data as intended: the normalised dict also takes over the exam's title and description. */
  function Prepared(data: Json): (r: Result<Json, PyError>)
    ensures r.Ok? ==> r.value.Obj?
  {
    if !data.Obj? then Err(AttributeError)
    else match Normalised(data.fields)
      case Err(e) => Err(e)
      case Ok(None) => Ok(data)
      case Ok(Some(lists)) =>
        var fields := [("multiple_choice", Arr(lists.0)), ("open_questions", Arr(lists.1))];
        Ok(Obj(CarryOver(data.fields, CarryOver(data.fields, fields, "title"), "description")))
  }

  /** The page heading: the title when the data has one (lines 151-152). */
  function Heading(data: Json): string
    requires data.Obj?
  {
    if "title" in Keys(data.fields) then PyStr(Lookup(data.fields, "title").value) else DefaultHeading
  }

  /** The description line under the heading, if any (lines 154-155). */
  function Description(data: Json): Option<string>
    requires data.Obj?
  {
    if "description" in Keys(data.fields) then Some(PyStr(Lookup(data.fields, "description").value)) else None
  }

  /** As written, a normalised exam always shows the template heading, whatever its title. */
  lemma TitleLostAsWritten(data: Json)
    requires data.Obj? && Normalised(data.fields).Ok? && Normalised(data.fields).value.Some?
    ensures PreparedAsWritten(data).Ok?
    ensures Heading(PreparedAsWritten(data).value) == DefaultHeading
    ensures Description(PreparedAsWritten(data).value) == None
  {
    var fields := PreparedAsWritten(data).value.fields;
    assert Keys(fields) == ["multiple_choice", "open_questions"];
  }

  /** The exam that shows it: a titled exam with one open question. */
  const TitledExam: Json := Obj([("title", Str("Biology")),
                                 ("questions", Arr([Obj([("type", Str("open")), ("question", Str("Why?"))])]))])

  lemma TitleLossExample()
    ensures PreparedAsWritten(TitledExam).Ok? && Heading(PreparedAsWritten(TitledExam).value) == DefaultHeading
    ensures Prepared(TitledExam).Ok? && Heading(Prepared(TitledExam).value) == "Biology"
  {
    var f := TitledExam.fields;
    var q := f[1].1.items[0];
    assert Lookup(f[1..], "questions") == Some(f[1].1);
    assert Lookup(f, "questions") == Some(f[1].1);
    assert SelectQuestions(f) == Ok([q]);
    assert Lookup(q.fields, "type") == Some(Str("open"));
    assert Lookup(q.fields[1..], "question") == Some(Str("Why?"));
    assert Lookup(q.fields, "question") == Some(Str("Why?"));
    assert Str("open") != Str("american");
    assert NormaliseEntry(q).Ok?;
    assert [q][..0] == [];
    assert NormaliseAll([q]).Ok?;
    TitleLostAsWritten(TitledExam);
    assert Lookup(f, "title") == Some(Str("Biology"));
  }

  /** As intended, the heading and description are the exam's own whenever it has them. */
  lemma PreparedKeepsTitle(data: Json)
    requires data.Obj? && Prepared(data).Ok?
    ensures "title" in Keys(data.fields) ==> Heading(Prepared(data).value) == PyStr(Lookup(data.fields, "title").value)
    ensures "description" in Keys(data.fields) ==>
      Description(Prepared(data).value) == Some(PyStr(Lookup(data.fields, "description").value))
  {
  }

  // ----- Multiple-choice blocks (lines 157-205) -----

  /** What `for x in value` walks over: list items, dict keys, string characters; other values raise. */
  function Iterate(value: Json): (r: Result<seq<Json>, PyError>)
    ensures value.Arr? ==> r == Ok(value.items)
    ensures r.Err? <==> value.Null? || value.Bool? || value.Int?
  {
    match value
    case Arr(items) => Ok(items)
    case Obj(fields) => Ok(Strs(Keys(fields)))
    case Str(s) => Ok(seq(|s|, k requires 0 <= k < |s| => Str([s[k]])))
    case _ => Err(TypeError)
  }

  /** A value used as a list after `if value:`: nothing when it is falsy. */
  function Listed(value: Json): Result<seq<Json>, PyError> {
    if J.Truthy(value) then Iterate(value) else Ok([])
  }

  /**
   * `mc_questions`: the exam's `multiple_choice`, else that of its `exam`
   * entry; testing and reading the `exam` entry raise as in `SelectQuestions`.
   */
  function ChoiceList(fields: seq<(string, Json)>): Result<seq<Json>, PyError> {
    if "multiple_choice" in Keys(fields) then Listed(Lookup(fields, "multiple_choice").value)
    else if "exam" in Keys(fields) then
      var exam := Lookup(fields, "exam").value;
      match In("multiple_choice", exam)
      case Err(e) => Err(e)
      case Ok(found) =>
        if !found then Ok([])
        else match GetItem(exam, "multiple_choice")
          case Err(e) => Err(e)
          case Ok(v) => Listed(v)
    else Ok([])
  }

  /**
   * The options of one multiple-choice question (lines 172-176): its `options`
   * when it has that key, else its `answers`; a value that is not a list gives
   * no options. Testing the key of a non-container, or reading it from a list or
   * string, raises.
   */
  function OptionsOf(q: Json): (r: Result<seq<Json>, PyError>)
    ensures r.Ok? && |r.value| > 0 ==> q.Obj?
    ensures q.Obj? ==> r.Ok?
  {
    match In("options", q)
    case Err(e) => Err(e)
    case Ok(found) =>
      if found then
        match GetItem(q, "options")
        case Err(e) => Err(e)
        case Ok(v) => Ok(if v.Arr? then v.items else [])
      else
        match Get(q, "answers", Arr([]))
        case Err(e) => Err(e)
        case Ok(v) => Ok(if v.Arr? then v.items else [])
  }

  /** A question that gets a block: it has options. */
  predicate HasOptions(q: Json) {
    OptionsOf(q).Ok? && |OptionsOf(q).value| > 0
  }

  /** A question the loop gets past: its options can be read, and one with options has a question text. */
  predicate ChoiceRenders(q: Json) {
    OptionsOf(q).Ok? && (|OptionsOf(q).value| > 0 ==> "question" in Keys(q.fields))
  }

  /** The options as the page writes them, with `str()`. */
  function Texts(values: seq<Json>): (r: seq<string>)
    ensures |r| == |values| && forall k :: 0 <= k < |values| ==> r[k] == PyStr(values[k])
  {
    seq(|values|, k requires 0 <= k < |values| => PyStr(values[k]))
  }

  /** One multiple-choice block: `index` numbers the `answer{index}` element the button shows. */
  datatype ChoiceBlock = ChoiceBlock(index: nat, question: string, options: seq<string>, answer: string)

  /**
   * The block of question `q` at position `index`: its question text, its
   * options in some order, and as the shown answer its `answer`, else its
   * `correct_answer`, else the option that was shuffled to the front.
   */
  predicate RendersAs(b: ChoiceBlock, q: Json, index: nat) {
    && HasOptions(q) && q.Obj? && "question" in Keys(q.fields)
    && b.index == index
    && b.question == PyStr(Lookup(q.fields, "question").value)
    && |b.options| == |OptionsOf(q).value|
    && multiset(b.options) == multiset(Texts(OptionsOf(q).value))
    && b.answer == (if "answer" in Keys(q.fields) then PyStr(Lookup(q.fields, "answer").value)
                    else if "correct_answer" in Keys(q.fields) then PyStr(Lookup(q.fields, "correct_answer").value)
                    else b.options[0])
  }

  /** Swapping two elements keeps the multiset, also of the written texts. */
  lemma SwapKeeps(s: seq<Json>, i: nat, j: nat)
    requires i < |s| && j < |s|
    ensures multiset(s[i := s[j]][j := s[i]]) == multiset(s)
    ensures multiset(Texts(s[i := s[j]][j := s[i]])) == multiset(Texts(s))
  {
    var t := Texts(s);
    assert Texts(s[i := s[j]][j := s[i]]) == t[i := t[j]][j := t[i]];
  }

  /**
   * `random.shuffle`: from the last position down to the second, swap with a
   * position at or below it. `draw(index, i)` stands for the random choice made
   * for position `i` while shuffling the options of question `index`.
   */
  method Shuffle(a: array<Json>, index: nat, draw: (nat, nat) -> nat)
    modifies a
    ensures multiset(a[..]) == multiset(old(a[..]))
    ensures multiset(Texts(a[..])) == multiset(Texts(old(a[..])))
  {
    var i := a.Length - 1;
    while i > 0
      invariant i < a.Length
      invariant multiset(a[..]) == multiset(old(a[..]))
      invariant multiset(Texts(a[..])) == multiset(Texts(old(a[..])))
    {
      var j := draw(index, i) % (i + 1);
      SwapKeeps(a[..], i, j);
      assert a[..][i := a[j]][j := a[i]] == a[..][i := a[..][j]][j := a[..][i]];
      a[i], a[j] := a[j], a[i];
      i := i - 1;
    }
  }

  /** One pass of the loop: no block for a question without options, else its block. */
  method RenderChoice(q: Json, index: nat, draw: (nat, nat) -> nat) returns (r: Result<Option<ChoiceBlock>, PyError>)
    ensures r.Ok? <==> ChoiceRenders(q)
    ensures r.Ok? ==> (r.value.Some? <==> HasOptions(q))
    ensures r.Ok? && r.value.Some? ==> RendersAs(r.value.value, q, index)
  {
    var options := OptionsOf(q);
    if options.Err? {
      return Err(options.error);
    }
    if |options.value| == 0 {
      return Ok(None);
    }
    var a := new Json[|options.value|](k requires 0 <= k < |options.value| => options.value[k]);
    assert a[..] == options.value;
    Shuffle(a, index, draw);
    var shuffled := a[..];
    var correct := Lookup(q.fields, "answer").GetOr(Lookup(q.fields, "correct_answer").GetOr(shuffled[0]));
    if "question" !in Keys(q.fields) {
      return Err(KeyError);
    }
    r := Ok(Some(ChoiceBlock(index, PyStr(Lookup(q.fields, "question").value), Texts(shuffled), PyStr(correct))));
  }

  /**
   * The loop over `mc_questions`: one block per question with options, in list
   * order and numbered by list position; the first question that cannot be
   * read stops the page.
   */
  method RenderChoices(qs: seq<Json>, draw: (nat, nat) -> nat) returns (r: Result<seq<ChoiceBlock>, PyError>)
    ensures r.Ok? <==> forall k :: 0 <= k < |qs| ==> ChoiceRenders(qs[k])
    ensures r.Ok? ==> var kept := Positions(qs, HasOptions);
      |r.value| == |kept| && forall m :: 0 <= m < |kept| ==> RendersAs(r.value[m], qs[kept[m]], kept[m])
  {
    var blocks: seq<ChoiceBlock> := [];
    var i := 0;
    while i < |qs|
      invariant 0 <= i <= |qs|
      invariant forall k :: 0 <= k < i ==> ChoiceRenders(qs[k])
      invariant var kept := Positions(qs[..i], HasOptions);
        |blocks| == |kept| && forall m :: 0 <= m < |kept| ==> RendersAs(blocks[m], qs[kept[m]], kept[m])
    {
      var block := RenderChoice(qs[i], i, draw);
      if block.Err? {
        return Err(block.error);
      }
      PositionsSnoc(qs, i, HasOptions);
      if block.value.Some? {
        blocks := blocks + [block.value.value];
      }
      i := i + 1;
    }
    assert qs[..i] == qs;
    r := Ok(blocks);
  }

  // ----- Open-question blocks (lines 207-241) -----

  /** `[q for q in items if q.get('type') == 'open']`: only dicts have `get`. */
  function OpenOnly(items: seq<Json>): (r: Result<seq<Json>, PyError>)
    ensures r.Ok? <==> forall k :: 0 <= k < |items| ==> items[k].Obj?
    ensures r.Ok? ==> forall q :: q in r.value ==> q in items && Lookup(q.fields, "type") == Some(Str("open"))
    decreases |items|
  {
    if |items| == 0 then Ok([])
    else
      var init := items[..|items| - 1];
      var last := items[|items| - 1];
      match OpenOnly(init)
      case Err(e) => Err(e)
      case Ok(before) =>
        match Get(last, "type", Null)
        case Err(e) => Err(e)
        case Ok(t) => Ok(if t == Str("open") then before + [last] else before)
  }

  /**
   * `open_questions`: the exam's `open_questions`, else those of its `exam`
   * entry, else the open entries of its `questions`.
   */
  function OpenList(fields: seq<(string, Json)>): Result<seq<Json>, PyError> {
    if "open_questions" in Keys(fields) then Listed(Lookup(fields, "open_questions").value)
    else
      var fromExam: Result<Option<Json>, PyError> :=
        if "exam" !in Keys(fields) then Ok(None)
        else
          var exam := Lookup(fields, "exam").value;
          match In("open_questions", exam)
          case Err(e) => Err(e)
          case Ok(found) =>
            if !found then Ok(None)
            else match GetItem(exam, "open_questions")
              case Err(e) => Err(e)
              case Ok(v) => Ok(Some(v));
      match fromExam
      case Err(e) => Err(e)
      case Ok(Some(v)) => Listed(v)
      case Ok(None) =>
        if "questions" !in Keys(fields) then Ok([])
        else match Iterate(Lookup(fields, "questions").value)
          case Err(e) => Err(e)
          case Ok(items) => OpenOnly(items)
  }

  /** One open-question block: `index` numbers its `open-answer{index}` element. */
  datatype OpenBlock = OpenBlock(index: nat, question: string, answer: string)

  /**
   * A dict with a question shows that question and its answer, or the
   * solution-guide text; anything else is shown itself, with that text.
   */
  function OpenBlockOf(q: Json, index: nat): OpenBlock {
    if q.Obj? && "question" in Keys(q.fields) then
      OpenBlock(index, PyStr(Lookup(q.fields, "question").value),
                PyStr(Lookup(q.fields, "answer").GetOr(Str(SeeGuide))))
    else OpenBlock(index, PyStr(q), SeeGuide)
  }

  /**
   * What an open block shows: its `enumerate` index, the question of a dict that
   * has one with its answer or the solution-guide text, and a plain string as
   * its own question.
   */
  lemma OpenBlockShows(q: Json, index: nat, text: string, answer: string)
    ensures OpenBlockOf(q, index).index == index
    ensures q.Obj? && Lookup(q.fields, "question") == Some(Str(text)) ==>
      OpenBlockOf(q, index).question == text
    ensures q.Obj? && "question" in Keys(q.fields) && Lookup(q.fields, "answer") == Some(Str(answer)) ==>
      OpenBlockOf(q, index).answer == answer
    ensures q.Obj? && "question" in Keys(q.fields) && "answer" !in Keys(q.fields) ==>
      OpenBlockOf(q, index).answer == SeeGuide
    ensures q == Str(text) ==> OpenBlockOf(q, index) == OpenBlock(index, text, SeeGuide)
  {
  }

  /** The loop over `open_questions`: one block per entry, in order, never an error. */
  method RenderOpen(qs: seq<Json>) returns (blocks: seq<OpenBlock>)
    ensures |blocks| == |qs| && forall k :: 0 <= k < |qs| ==> blocks[k] == OpenBlockOf(qs[k], k)
  {
    blocks := [];
    for i := 0 to |qs|
      invariant |blocks| == i && forall k :: 0 <= k < i ==> blocks[k] == OpenBlockOf(qs[k], k)
    {
      blocks := blocks + [OpenBlockOf(qs[i], i)];
    }
  }

  // ----- The page (lines 8-249) -----

  /** The structure of the generated page. */
  datatype Page = Page(heading: string, description: Option<string>, choices: seq<ChoiceBlock>, opens: seq<OpenBlock>)

  /**
   * `generate_html`, with the title and description carried over the
   * normalisation: the page succeeds exactly when every step can read what it
   * needs; its heading and description are the exam's; it holds one block per
   * multiple-choice question with options, in order, each showing a permutation
   * of that question's options; and one block per open question.
   */
  method GenerateHtml(data: Json, draw: (nat, nat) -> nat) returns (r: Result<Page, PyError>)
    ensures r.Ok? <==>
      && Prepared(data).Ok?
      && ChoiceList(Prepared(data).value.fields).Ok?
      && (forall k :: 0 <= k < |ChoiceList(Prepared(data).value.fields).value| ==>
            ChoiceRenders(ChoiceList(Prepared(data).value.fields).value[k]))
      && OpenList(Prepared(data).value.fields).Ok?
    ensures r.Ok? ==>
      var p := Prepared(data).value;
      var qs := ChoiceList(p.fields).value;
      var kept := Positions(qs, HasOptions);
      && r.value.heading == Heading(p)
      && r.value.description == Description(p)
      && |r.value.choices| == |kept|
      && (forall m :: 0 <= m < |kept| ==> RendersAs(r.value.choices[m], qs[kept[m]], kept[m]))
      && |r.value.opens| == |OpenList(p.fields).value|
      && (forall k :: 0 <= k < |r.value.opens| ==> r.value.opens[k] == OpenBlockOf(OpenList(p.fields).value[k], k))
  {
    if !data.Obj? {
      return Err(AttributeError);
    }
    var fields := data.fields;
    var qs := SelectQuestions(fields);
    if qs.Err? {
      return Err(qs.error);
    }
    if |qs.value| > 0 {
      var lists := NormaliseQuestions(qs.value);
      if lists.Err? {
        return Err(lists.error);
      }
      var normalised := [("multiple_choice", Arr(lists.value.0)), ("open_questions", Arr(lists.value.1))];
      fields := CarryOver(data.fields, CarryOver(data.fields, normalised, "title"), "description");
    }
    var prepared := Obj(fields);
    assert Prepared(data) == Ok(prepared);
    var choiceList := ChoiceList(fields);
    if choiceList.Err? {
      return Err(choiceList.error);
    }
    var choices := RenderChoices(choiceList.value, draw);
    if choices.Err? {
      return Err(choices.error);
    }
    var openList := OpenList(fields);
    if openList.Err? {
      return Err(openList.error);
    }
    var opens := RenderOpen(openList.value);
    r := Ok(Page(Heading(prepared), Description(prepared), choices.value, opens));
  }
}
