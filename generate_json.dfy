/**
 * The text utilities of the exam and summary generator: the quote repair applied
 * to model output, the prompt builder, the last-resort fallback structure, and
 * the builder that recovers questions from plain text when no JSON could be read.
 */
module GenerateJson {
  import opened Wrappers
  import opened Text
  import opened Json

  // ---------------------------------------------------------------------------
  // fix_json_quotes

  /**
   * The text the quote repair produces from position `i` on, given whether the
   * scan is inside a double-quoted or a single-quoted string: an escape and its
   * character are copied as they are; a double quote toggles the double-quoted
   * state unless inside a single-quoted string; a single quote outside a
   * double-quoted string becomes a double quote and toggles the single-quoted
   * state; one inside a double-quoted string is escaped.
   */
  function Fixed(text: string, i: nat, inString: bool, inSingle: bool): string
    requires i <= |text|
    decreases |text| - i
  {
    if i == |text| then ""
    else
      var c := text[i];
      if c == '\\' && i + 1 < |text| then [c, text[i + 1]] + Fixed(text, i + 2, inString, inSingle)
      else if c == '"' && !inSingle then "\"" + Fixed(text, i + 1, !inString, inSingle)
      else if c == '\'' && !inString then "\"" + Fixed(text, i + 1, inString, !inSingle)
      else if c == '\'' && inString then "\\'" + Fixed(text, i + 1, inString, inSingle)
      else [c] + Fixed(text, i + 1, inString, inSingle)
  }

  /** `fix_json_quotes`: one pass over the text, appending to a list of pieces that is joined at the end. */
  method FixJsonQuotes(text: string) returns (out: string)
    ensures out == Fixed(text, 0, false, false)
  {
    var inString, inSingle := false, false;
    var result: seq<string> := [];
    var i := 0;
    ghost var goal := Fixed(text, 0, false, false);
    while i < |text|
      invariant 0 <= i <= |text|
      invariant Concat(result) + Fixed(text, i, inString, inSingle) == goal
    {
      var c := text[i];
      if c == '\\' && i + 1 < |text| {
        EscapeKeeps(result, text, i, inString, inSingle, goal);
        result := result + [[c]];
        i := i + 1;
        result := result + [[text[i]]];
        i := i + 1;
      } else {
        var piece, inString', inSingle' := QuoteStep(text, i, inString, inSingle);
        PieceKeeps(result, piece, Fixed(text, i, inString, inSingle), Fixed(text, i + 1, inString', inSingle'), goal);
        result := result + [piece];
        inString, inSingle := inString', inSingle';
        i := i + 1;
      }
    }
    assert Fixed(text, i, inString, inSingle) == "";
    assert Concat(result) + "" == Concat(result);
    out := Concat(result);
  }

  /** One character that does not start an escape: what it becomes and the new quoting state. */
  method QuoteStep(text: string, i: nat, inString: bool, inSingle: bool) returns (piece: string, inString': bool, inSingle': bool)
    requires i < |text| && !(text[i] == '\\' && i + 1 < |text|)
    ensures Fixed(text, i, inString, inSingle) == piece + Fixed(text, i + 1, inString', inSingle')
  {
    var c := text[i];
    inString', inSingle' := inString, inSingle;
    if c == '"' && !inSingle {
      inString' := !inString;
      piece := "\"";
    } else if c == '\'' && !inString {
      inSingle' := !inSingle;
      piece := "\"";
    } else if c == '\'' && inString {
      piece := "\\'";
    } else {
      piece := [c];
    }
  }

  lemma EscapeKeeps(result: seq<string>, text: string, i: nat, inString: bool, inSingle: bool, goal: string)
    requires i + 1 < |text| && text[i] == '\\'
    requires Concat(result) + Fixed(text, i, inString, inSingle) == goal
    ensures Concat(result + [[text[i]]] + [[text[i + 1]]]) + Fixed(text, i + 2, inString, inSingle) == goal
  {
    var later := Fixed(text, i + 2, inString, inSingle);
    assert Fixed(text, i, inString, inSingle) == [text[i], text[i + 1]] + later;
    assert [text[i], text[i + 1]] == [text[i]] + [text[i + 1]];
    PiecesKeep(result, [text[i]], [text[i + 1]], later, goal);
  }

  lemma PiecesKeep(result: seq<string>, p: string, q: string, later: string, goal: string)
    requires Concat(result) + ((p + q) + later) == goal
    ensures Concat(result + [p] + [q]) + later == goal
  {
    ConcatSnoc2(result, p, q);
  }

  lemma PieceKeeps(result: seq<string>, piece: string, rest: string, later: string, goal: string)
    requires Concat(result) + rest == goal && rest == piece + later
    ensures Concat(result + [piece]) + later == goal
  {
    ConcatSnoc(result, piece);
  }

  lemma ConcatSnoc(parts: seq<string>, p: string)
    ensures Concat(parts + [p]) == Concat(parts) + p
  {
    assert (parts + [p])[..|parts|] == parts;
  }

  lemma ConcatSnoc2(parts: seq<string>, p: string, q: string)
    ensures Concat(parts + [p] + [q]) == Concat(parts) + p + q
  {
    ConcatSnoc(parts, p);
    ConcatSnoc(parts + [p], q);
  }

  /** Text without single quotes is returned unchanged, whatever the double-quote state. */
  lemma {:induction false} NoSingleQuoteUnchanged(text: string, i: nat, inString: bool)
    requires i <= |text| && forall k :: i <= k < |text| ==> text[k] != '\''
    ensures Fixed(text, i, inString, false) == text[i..]
    decreases |text| - i
  {
    if i < |text| {
      var c := text[i];
      if c == '\\' && i + 1 < |text| {
        NoSingleQuoteUnchanged(text, i + 2, inString);
        assert text[i..] == [c, text[i + 1]] + text[i + 2..];
      } else if c == '"' {
        NoSingleQuoteUnchanged(text, i + 1, !inString);
        assert text[i..] == [c] + text[i + 1..];
      } else {
        NoSingleQuoteUnchanged(text, i + 1, inString);
        assert text[i..] == [c] + text[i + 1..];
      }
    }
  }

  /** Every single quote of `s` directly follows a backslash. */
  predicate QuotesEscaped(s: string) {
    forall k :: 0 <= k < |s| && s[k] == '\'' ==> k > 0 && s[k - 1] == '\\'
  }

  lemma EscapedConcat(x: string, y: string)
    requires QuotesEscaped(x) && QuotesEscaped(y) && (|y| > 0 ==> y[0] != '\'')
    ensures QuotesEscaped(x + y)
  {
    var s := x + y;
    forall k | 0 <= k < |s| && s[k] == '\'' ensures k > 0 && s[k - 1] == '\\' {
      if k >= |x| {
        assert y[k - |x|] == '\'';
      }
    }
  }

  /** The repaired text has no bare single quote left: each one is the second half of an escape. */
  lemma {:induction false} NoBareSingleQuotes(text: string, i: nat, inString: bool, inSingle: bool)
    requires i <= |text|
    ensures QuotesEscaped(Fixed(text, i, inString, inSingle))
    ensures |Fixed(text, i, inString, inSingle)| > 0 ==> Fixed(text, i, inString, inSingle)[0] != '\''
    decreases |text| - i
  {
    if i < |text| {
      var c := text[i];
      if c == '\\' && i + 1 < |text| {
        NoBareSingleQuotes(text, i + 2, inString, inSingle);
        EscapedConcat([c, text[i + 1]], Fixed(text, i + 2, inString, inSingle));
      } else if c == '"' && !inSingle {
        NoBareSingleQuotes(text, i + 1, !inString, inSingle);
        EscapedConcat("\"", Fixed(text, i + 1, !inString, inSingle));
      } else if c == '\'' && !inString {
        NoBareSingleQuotes(text, i + 1, inString, !inSingle);
        EscapedConcat("\"", Fixed(text, i + 1, inString, !inSingle));
      } else if c == '\'' && inString {
        NoBareSingleQuotes(text, i + 1, inString, inSingle);
        EscapedConcat("\\'", Fixed(text, i + 1, inString, inSingle));
      } else {
        NoBareSingleQuotes(text, i + 1, inString, inSingle);
        EscapedConcat([c], Fixed(text, i + 1, inString, inSingle));
      }
    }
  }

  /** The number of single quotes the scan meets inside double-quoted strings (outside escapes). */
  function QuotesInStrings(text: string, i: nat, inString: bool, inSingle: bool): nat
    requires i <= |text|
    decreases |text| - i
  {
    if i == |text| then 0
    else
      var c := text[i];
      if c == '\\' && i + 1 < |text| then QuotesInStrings(text, i + 2, inString, inSingle)
      else if c == '"' && !inSingle then QuotesInStrings(text, i + 1, !inString, inSingle)
      else if c == '\'' && !inString then QuotesInStrings(text, i + 1, inString, !inSingle)
      else if c == '\'' && inString then 1 + QuotesInStrings(text, i + 1, inString, inSingle)
      else QuotesInStrings(text, i + 1, inString, inSingle)
  }

  /** The repair only ever adds the escaping backslashes: one character more per quote inside a double-quoted string. */
  lemma {:induction false} FixedLength(text: string, i: nat, inString: bool, inSingle: bool)
    requires i <= |text|
    ensures |Fixed(text, i, inString, inSingle)| == |text| - i + QuotesInStrings(text, i, inString, inSingle)
    decreases |text| - i
  {
    if i < |text| {
      var c := text[i];
      if c == '\\' && i + 1 < |text| {
        FixedLength(text, i + 2, inString, inSingle);
      } else if c == '"' && !inSingle {
        FixedLength(text, i + 1, !inString, inSingle);
      } else if c == '\'' && !inString {
        FixedLength(text, i + 1, inString, !inSingle);
      } else {
        FixedLength(text, i + 1, inString, inSingle);
      }
    }
  }

  // ---------------------------------------------------------------------------
  // get_prompt

  const TestPromptStart: string := "Generate a test with "
  const TestPromptMiddle: string := " " + "American-style multiple choice questions and "
  const TestPromptEnd: string :=
    " " + "open questions based on the following content. Each question should have 4 options, with exactly one correct answer."
  const SummaryPrompt: string :=
    "Generate a comprehensive summary of the following content. Include the main topics, key points, and any important details."

  function TestPrompt(american: Json, open: Json): string {
    TestPromptStart + PyStr(american) + TestPromptMiddle + PyStr(open) + TestPromptEnd
  }

  /**
   * `get_prompt`: "test" reads the two counts from `params` (8 and 3 when absent;
   * `params` left at `None` has no `get`), "summary" needs no parameters, any
   * other type is refused.
   */
  function GetPrompt(promptType: string, params: Json): (r: Result<string, PyError>)
    ensures promptType == "summary" ==> r == Ok(SummaryPrompt)
    ensures promptType != "test" && promptType != "summary" ==> r == Err(ValueError("Unknown prompt type: " + promptType))
    ensures promptType == "test" ==> (r.Ok? <==> params.Obj?)
    ensures promptType == "test" && params.Obj? ==>
      r == Ok(TestPrompt(Lookup(params.fields, "num_of_american").GetOr(Int(8)),
                         Lookup(params.fields, "num_of_open").GetOr(Int(3))))
  {
    if promptType == "test" then
      match Get(params, "num_of_american", Int(8))
      case Err(e) => Err(e)
      case Ok(american) =>
        match Get(params, "num_of_open", Int(3))
        case Err(e) => Err(e)
        case Ok(open) => Ok(TestPrompt(american, open))
    else if promptType == "summary" then Ok(SummaryPrompt)
    else Err(ValueError("Unknown prompt type: " + promptType))
  }

  /** The longest run of digits at the start of `s`. */
  function DigitPrefix(s: string): (d: string)
    ensures |d| <= |s| && d == s[..|d|] && AllDigits(d)
    ensures |d| == |s| || !IsDigit(s[|d|])
    decreases |s|
  {
    if |s| > 0 && IsDigit(s[0]) then [s[0]] + DigitPrefix(s[1..]) else ""
  }

  lemma DigitPrefixOf(d: string, rest: string)
    requires |d| >= 1 && AllDigits(d) && (|rest| == 0 || !IsDigit(rest[0]))
    ensures DigitPrefix(d + rest) == d
    decreases |d|
  {
    var s := d + rest;
    assert s[0] == d[0] && IsDigit(s[0]);
    assert DigitPrefix(s) == [d[0]] + DigitPrefix(s[1..]);
    if |d| > 1 {
      assert s[1..] == d[1..] + rest;
      DigitPrefixOf(d[1..], rest);
      assert d == [d[0]] + d[1..];
    } else {
      assert s[1..] == rest;
    }
  }

  /** How a reader finds two counts between the fixed texts `start`, `middle` and `end`. */
  function ReadBetween(p: string, start: string, middle: string, end: string): Option<(nat, nat)> {
    if !StartsWith(p, start) then None
    else
      var r1 := p[|start|..];
      var a := DigitPrefix(r1);
      var r2 := r1[|a|..];
      if !StartsWith(r2, middle) then None
      else
        var r3 := r2[|middle|..];
        var b := DigitPrefix(r3);
        if r3[|b|..] != end then None
        else if ParseNat(a).None? || ParseNat(b).None? then None
        else Some((ParseNat(a).value, ParseNat(b).value))
  }

  lemma ReadBetweenOf(start: string, a: string, middle: string, b: string, end: string)
    requires |a| >= 1 && AllDigits(a) && |b| >= 1 && AllDigits(b)
    requires |middle| > 0 && !IsDigit(middle[0]) && |end| > 0 && !IsDigit(end[0])
    ensures ReadBetween(start + (a + (middle + (b + end))), start, middle, end) == Some((DigitsValue(a), DigitsValue(b)))
  {
    var r3 := b + end;
    var r2 := middle + r3;
    var r1 := a + r2;
    var p := start + r1;
    assert p[..|start|] == start && p[|start|..] == r1;
    DigitPrefixOf(a, r2);
    assert r1[|a|..] == r2;
    assert r2[..|middle|] == middle && r2[|middle|..] == r3;
    DigitPrefixOf(b, end);
    assert r3[|b|..] == end;
  }

  /** How a reader of a test prompt finds the two counts in it. */
  function ReadCounts(p: string): Option<(nat, nat)> {
    ReadBetween(p, TestPromptStart, TestPromptMiddle, TestPromptEnd)
  }

  /** The counts a test prompt is built from can be read back out of it. */
  lemma PromptCountsReadBack(american: nat, open: nat)
    ensures ReadCounts(TestPrompt(Int(american), Int(open))) == Some((american, open))
  {
    var a, b := NatToString(american), NatToString(open);
    assert PyStr(Int(american)) == a && PyStr(Int(open)) == b;
    assert TestPrompt(Int(american), Int(open)) == TestPromptStart + (a + (TestPromptMiddle + (b + TestPromptEnd)));
    assert TestPromptMiddle[0] == ' ' && TestPromptEnd[0] == ' ';
    ReadBetweenOf(TestPromptStart, a, TestPromptMiddle, b, TestPromptEnd);
    NatToStringRoundTrip(american);
    NatToStringRoundTrip(open);
  }

  /** With no counts given, the test prompt asks for 8 multiple-choice and 3 open questions. */
  lemma DefaultCounts()
    ensures GetPrompt("test", Obj([])) == Ok(TestPrompt(Int(8), Int(3)))
    ensures ReadCounts(TestPrompt(Int(8), Int(3))) == Some((8, 3))
  {
    PromptCountsReadBack(8, 3);
  }

  // ---------------------------------------------------------------------------
  // create_fallback_json

  const Placeholders: seq<string> := ["Option A", "Option B", "Option C", "Option D"]

  /** One multiple-choice question as the generator writes it. */
  function American(question: string, answers: seq<string>, correct: string): Json {
    Obj([("question", Str(question)), ("type", Str("american")), ("answers", Arr(Strs(answers))),
         ("correct_answer", Str(correct))])
  }

  /** `create_fallback_json`: a summary stub, or a test with one placeholder question. */
  function CreateFallbackJson(generateType: string): Json {
    if generateType == "summary" then
      Obj([("summary", Str("Error processing document. Please try again with a different document.")),
           ("subjects", Arr([Str("Error processing document")]))])
    else
      Obj([("title", Str("Error processing document")),
           ("description", Str("Could not generate test questions. Please try again.")),
           ("questions", Arr([American("Error processing document", Placeholders, "Option A")]))])
  }

  /** A multiple-choice question whose correct answer is one of its answers. */
  predicate AnswerAmongOptions(q: Json) {
    q.Obj? && Lookup(q.fields, "type") == Some(Str("american"))
    && Lookup(q.fields, "answers").Some? && Lookup(q.fields, "answers").value.Arr?
    && Lookup(q.fields, "correct_answer").Some?
    && Lookup(q.fields, "correct_answer").value in Lookup(q.fields, "answers").value.items
  }

  /** A question built with one of its own options as the answer carries that answer among its answers. */
  lemma AmericanAnswerAmongOptions(question: string, answers: seq<string>, k: nat)
    requires k < |answers|
    ensures AnswerAmongOptions(American(question, answers, answers[k]))
  {
    var fields := American(question, answers, answers[k]).fields;
    assert Lookup(fields[1..], "type") == Some(Str("american"));
    assert Lookup(fields[3..], "correct_answer") == Some(Str(answers[k]));
    assert Lookup(fields[2..], "correct_answer") == Some(Str(answers[k]));
    assert Lookup(fields[1..], "correct_answer") == Some(Str(answers[k]));
    assert Lookup(fields[2..], "answers") == Some(Arr(Strs(answers)));
    assert Lookup(fields[1..], "answers") == Some(Arr(Strs(answers)));
    assert Strs(answers)[k] == Str(answers[k]);
  }

  /** The summary stub has a summary and a list of subjects. */
  lemma SummaryFallbackKeys()
    ensures Keys(CreateFallbackJson("summary").fields) == ["summary", "subjects"]
  {
    var fields := CreateFallbackJson("summary").fields;
    assert Keys(fields[2..]) == [];
    assert Keys(fields[1..]) == ["subjects"];
  }

  /** The test stub holds one question, and its answer is one of its options. */
  lemma TestFallbackQuestion(generateType: string)
    requires generateType != "summary"
    ensures var questions := Lookup(CreateFallbackJson(generateType).fields, "questions");
      questions.Some? && questions.value.Arr? && |questions.value.items| == 1
      && AnswerAmongOptions(questions.value.items[0])
  {
    var fields := CreateFallbackJson(generateType).fields;
    var q := American("Error processing document", Placeholders, "Option A");
    assert Lookup(fields[2..], "questions") == Some(Arr([q]));
    AmericanAnswerAmongOptions("Error processing document", Placeholders, 0);
  }

  // ---------------------------------------------------------------------------
  // The text fallback of extract_and_parse_json

  /** The end of the run of whitespace starting at `i`. */
  function SkipSpaces(text: string, i: nat): (j: nat)
    requires i <= |text|
    ensures i <= j <= |text| && (j == |text| || !IsPySpace(text[j]))
    ensures forall m :: i <= m < j ==> IsPySpace(text[m])
    decreases |text| - i
  {
    if i < |text| && IsPySpace(text[i]) then SkipSpaces(text, i + 1) else i
  }

  /** The end of the run of digits starting at `i`. */
  function SkipDigits(text: string, i: nat): (j: nat)
    requires i <= |text|
    ensures i <= j <= |text| && (j == |text| || !IsDigit(text[j]))
    ensures forall m :: i <= m < j ==> IsDigit(text[m])
    decreases |text| - i
  {
    if i < |text| && IsDigit(text[i]) then SkipDigits(text, i + 1) else i
  }

  /**
   * Where a match of `\n\s*\d+[.)]\s*` starting at `i` ends, if there is one:
   * a line break, spaces, at least one digit, a '.' or ')', and trailing spaces.
   */
  function SeparatorAt(text: string, i: nat): (r: Option<nat>)
    requires i <= |text|
    ensures r.Some? ==> i + 3 <= r.value <= |text| && text[i] == '\n'
  {
    if i < |text| && text[i] == '\n' then
      var j := SkipSpaces(text, i + 1);
      var k := SkipDigits(text, j);
      if j < k < |text| && (text[k] == '.' || text[k] == ')') then Some(SkipSpaces(text, k + 1)) else None
    else None
  }

  /** `re.split(r'\n\s*\d+[\.\)]\s*', text)` from `start`, the leftmost match searched from `i`. */
  function SplitBlocksFrom(text: string, start: nat, i: nat): (blocks: seq<string>)
    requires start <= i <= |text|
    ensures |blocks| >= 1
    decreases |text| - i
  {
    if i == |text| then [text[start..]]
    else
      match SeparatorAt(text, i)
      case Some(end) => [text[start..i]] + SplitBlocksFrom(text, end, end)
      case None => SplitBlocksFrom(text, start, i + 1)
  }

  function SplitBlocks(text: string): seq<string> {
    SplitBlocksFrom(text, 0, 0)
  }

  /** A text with no line break is a single block. */
  lemma {:induction false} SingleLineOneBlock(text: string, start: nat, i: nat)
    requires start <= i <= |text| && '\n' !in text
    ensures SplitBlocksFrom(text, start, i) == [text[start..]]
    decreases |text| - i
  {
    if i < |text| {
      assert text[i] in text;
      SingleLineOneBlock(text, start, i + 1);
    }
  }

  /** `re.match(r'^[A-D][\.\)]', line.strip())`. */
  predicate IsOptionLine(line: string) {
    var t := Strip(line);
    |t| >= 2 && 'A' <= t[0] <= 'D' && (t[1] == '.' || t[1] == ')')
  }

  /** `line.strip()[2:].strip()`. */
  function OptionText(line: string): string
    requires IsOptionLine(line)
  {
    Strip(Strip(line)[2..])
  }

  /** The option a line holds, if it is an option line. */
  function OptionOf(line: string): (r: Option<string>)
    ensures r.Some? <==> IsOptionLine(line)
    ensures r.Some? ==> r.value == OptionText(line)
  {
    if IsOptionLine(line) then Some(OptionText(line)) else None
  }

  /** The values `f` finds in `lines`, in order. */
  function Collect(lines: seq<string>, f: string -> Option<string>): (found: seq<string>)
    ensures |found| <= |lines|
    decreases |lines|
  {
    if |lines| == 0 then []
    else
      var before := Collect(lines[..|lines| - 1], f);
      match f(lines[|lines| - 1])
      case None => before
      case Some(v) => before + [v]
  }

  /** Something is found exactly when `f` finds something in some line; the first value found comes from such a line. */
  lemma {:induction false} CollectNonEmpty(lines: seq<string>, f: string -> Option<string>)
    ensures |Collect(lines, f)| > 0 <==> exists k :: 0 <= k < |lines| && f(lines[k]).Some?
    ensures |Collect(lines, f)| > 0 ==>
      exists k :: 0 <= k < |lines| && f(lines[k]).Some? && Collect(lines, f)[0] == f(lines[k]).value
    decreases |lines|
  {
    if |lines| > 0 {
      var n := |lines| - 1;
      var init := lines[..n];
      CollectNonEmpty(init, f);
      if |Collect(init, f)| > 0 {
        var k :| 0 <= k < |init| && f(init[k]).Some? && Collect(init, f)[0] == f(init[k]).value;
        assert lines[k] == init[k];
      } else if f(lines[n]).Some? {
        assert Collect(lines, f)[0] == f(lines[n]).value;
      } else {
        forall k | 0 <= k < |lines| ensures f(lines[k]).None? {
          if k < n {
            assert lines[k] == init[k];
          }
        }
      }
    }
  }

  /** The option texts of the option lines among `lines`, in order. */
  function Options(lines: seq<string>): seq<string> {
    Collect(lines, OptionOf)
  }

  /** The question a block of text yields: none when it is shorter than 30 characters once stripped. */
  function BlockQuestion(block: string): Option<Json> {
    var stripped := Strip(block);
    if |stripped| < 30 then None
    else
      var lines := Split(stripped, '\n');
      var question := Strip(lines[0]);
      var options := Options(lines[1..]);
      if question != "" && |options| > 0 then Some(American(question, options, options[0]))
      else if question != "" then Some(Obj([("question", Str(question)), ("type", Str("open"))]))
      else None
  }

  /** The first line of a stripped non-empty text has a non-blank start. */
  lemma FirstLineNotBlank(s: string)
    requires |s| > 0 && !IsPySpace(s[0])
    ensures Strip(Split(s, '\n')[0]) != ""
  {
    var parts := Split(s, '\n');
    JoinSplit(s, '\n');
    var first := parts[0];
    if |parts| > 1 {
      assert Join(parts, '\n') == first + ['\n'] + Join(parts[1..], '\n');
    }
    assert first[0] == s[0];
    assert LStrip(first) == first;
  }

  /**
   * Every block of at least 30 characters once stripped yields exactly one
   * question: a multiple-choice one when a later line of it starts with A-D and
   * '.' or ')', whose answer is the first of the options, and an open one otherwise.
   */
  lemma LongBlockYieldsQuestion(block: string)
    ensures |Strip(block)| < 30 <==> BlockQuestion(block).None?
    ensures var lines := Split(Strip(block), '\n');
      |Options(lines[1..])| > 0 <==> exists k :: 1 <= k < |lines| && IsOptionLine(lines[k])
    ensures BlockQuestion(block).Some? ==>
      var lines := Split(Strip(block), '\n');
      var options := Options(lines[1..]);
      BlockQuestion(block).value ==
        if |options| > 0 then American(Strip(lines[0]), options, options[0])
        else Obj([("question", Str(Strip(lines[0]))), ("type", Str("open"))])
  {
    var stripped := Strip(block);
    var lines := Split(stripped, '\n');
    if |stripped| >= 30 {
      FirstLineNotBlank(stripped);
    }
    OptionsIffOptionLine(lines);
  }

  /** The lines after the first hold an option exactly when one of them is an option line. */
  lemma OptionsIffOptionLine(lines: seq<string>)
    requires |lines| >= 1
    ensures |Options(lines[1..])| > 0 <==> exists k :: 1 <= k < |lines| && IsOptionLine(lines[k])
  {
    CollectNonEmpty(lines[1..], OptionOf);
    if exists k :: 1 <= k < |lines| && IsOptionLine(lines[k]) {
      var k :| 1 <= k < |lines| && IsOptionLine(lines[k]);
      assert lines[1..][k - 1] == lines[k];
      assert OptionOf(lines[1..][k - 1]).Some?;
    } else {
      forall k | 0 <= k < |lines[1..]| ensures OptionOf(lines[1..][k]).None? {
        assert lines[1..][k] == lines[k + 1];
      }
    }
  }

  /** The questions of the blocks, in order. */
  function Questions(blocks: seq<string>): (qs: seq<Json>)
    ensures |qs| <= |blocks|
    decreases |blocks|
  {
    if |blocks| == 0 then []
    else
      var before := Questions(blocks[..|blocks| - 1]);
      match BlockQuestion(blocks[|blocks| - 1])
      case None => before
      case Some(q) => before + [q]
  }

  /** The number of blocks of at least 30 characters once stripped. */
  function LongBlocks(blocks: seq<string>): nat
    decreases |blocks|
  {
    if |blocks| == 0 then 0
    else LongBlocks(blocks[..|blocks| - 1]) + (if |Strip(blocks[|blocks| - 1])| >= 30 then 1 else 0)
  }

  /** One question per long block, none for the short ones. */
  lemma {:induction false} QuestionPerLongBlock(blocks: seq<string>)
    ensures |Questions(blocks)| == LongBlocks(blocks)
    decreases |blocks|
  {
    if |blocks| > 0 {
      QuestionPerLongBlock(blocks[..|blocks| - 1]);
      LongBlockYieldsQuestion(blocks[|blocks| - 1]);
    }
  }

  predicate IsAmerican(q: Json) {
    q.Obj? && Lookup(q.fields, "type") == Some(Str("american"))
  }

  /** A multiple-choice question recovered from one block has its answer among its options. */
  lemma BlockAnswerAmongOptions(block: string)
    ensures BlockQuestion(block).Some? && IsAmerican(BlockQuestion(block).value) ==>
      AnswerAmongOptions(BlockQuestion(block).value)
  {
    var stripped := Strip(block);
    if |stripped| >= 30 {
      var lines := Split(stripped, '\n');
      var options := Options(lines[1..]);
      if |options| > 0 {
        AmericanAnswerAmongOptions(Strip(lines[0]), options, 0);
      } else {
        var open := Obj([("question", Str(Strip(lines[0]))), ("type", Str("open"))]);
        assert Lookup(open.fields[1..], "type") == Some(Str("open"));
      }
    }
  }

  /** Every multiple-choice question recovered from text has its answer among its options. */
  lemma {:induction false} ExtractedAnswersAmongOptions(blocks: seq<string>)
    ensures forall k :: 0 <= k < |Questions(blocks)| && IsAmerican(Questions(blocks)[k]) ==>
      AnswerAmongOptions(Questions(blocks)[k])
    decreases |blocks|
  {
    if |blocks| > 0 {
      var init := blocks[..|blocks| - 1];
      ExtractedAnswersAmongOptions(init);
      BlockAnswerAmongOptions(blocks[|blocks| - 1]);
      var before := Questions(init);
      var qs := Questions(blocks);
      match BlockQuestion(blocks[|blocks| - 1])
      case None =>
        assert qs == before;
      case Some(q) =>
        assert qs == before + [q];
        forall k | 0 <= k < |qs| && IsAmerican(qs[k]) ensures AnswerAmongOptions(qs[k]) {
          if k < |before| {
            assert qs[k] == before[k];
          }
        }
    }
  }

  /** The options of the option lines among `lines`, collected by a loop. */
  method CollectOptions(lines: seq<string>) returns (options: seq<string>)
    ensures options == Options(lines)
  {
    options := [];
    var i := 0;
    while i < |lines|
      invariant 0 <= i <= |lines|
      invariant options == Options(lines[..i])
    {
      assert lines[..i + 1][..i] == lines[..i] && lines[..i + 1][i] == lines[i];
      var line := Strip(lines[i]);
      if |line| >= 2 && 'A' <= line[0] <= 'D' && (line[1] == '.' || line[1] == ')') {
        options := options + [Strip(line[2..])];
      }
      i := i + 1;
    }
    assert lines[..i] == lines;
  }

  /**
   * The structure recovered from plain text for a "test": the blocks between
   * numbered-item markers turned into questions; when none comes out, and for
   * every other type, the fallback structure.
   */
  method BuildFromText(text: string, generateType: string) returns (r: Json)
    ensures generateType == "test" && |Questions(SplitBlocks(text))| > 0 ==>
      r == Obj([("title", Str("Extracted Test")), ("description", Str("Test questions extracted from text")),
                ("questions", Arr(Questions(SplitBlocks(text))))])
    ensures generateType != "test" || |Questions(SplitBlocks(text))| == 0 ==> r == CreateFallbackJson(generateType)
  {
    if generateType == "test" {
      var questions := ExtractQuestions(SplitBlocks(text));
      if |questions| > 0 {
        return Obj([("title", Str("Extracted Test")), ("description", Str("Test questions extracted from text")),
                    ("questions", Arr(questions))]);
      }
    }
    r := CreateFallbackJson(generateType);
  }

  /** The loop over the blocks in the text fallback of `extract_and_parse_json`. */
  method ExtractQuestions(blocks: seq<string>) returns (questions: seq<Json>)
    ensures questions == Questions(blocks)
  {
    questions := [];
    var i := 0;
    while i < |blocks|
      invariant 0 <= i <= |blocks|
      invariant questions == Questions(blocks[..i])
    {
      questions := AddBlockQuestion(blocks, i, questions);
      i := i + 1;
    }
    assert blocks[..i] == blocks;
  }

  /** One pass of that loop: the question of block `i`, if it has one, goes last. */
  method AddBlockQuestion(blocks: seq<string>, i: nat, questions: seq<Json>) returns (next: seq<Json>)
    requires i < |blocks| && questions == Questions(blocks[..i])
    ensures next == Questions(blocks[..i + 1])
  {
    var q := QuestionFromBlock(blocks[i]);
    QuestionsSnoc(blocks, i);
    next := questions;
    if q.Some? {
      next := questions + [q.value];
    }
  }

  /** The body of that loop for one block. */
  method QuestionFromBlock(block: string) returns (q: Option<Json>)
    ensures q == BlockQuestion(block)
  {
    var stripped := Strip(block);
    if |stripped| < 30 {
      return None;
    }
    var lines := Split(stripped, '\n');
    var question := Strip(lines[0]);
    var options := CollectOptions(lines[1..]);
    if question != "" && |options| > 0 {
      q := Some(American(question, options, options[0]));
    } else if question != "" {
      q := Some(Obj([("question", Str(question)), ("type", Str("open"))]));
    } else {
      q := None;
    }
  }

  lemma QuestionsSnoc(blocks: seq<string>, i: nat)
    requires i < |blocks|
    ensures Questions(blocks[..i + 1])
         == match BlockQuestion(blocks[i]) case None => Questions(blocks[..i]) case Some(q) => Questions(blocks[..i]) + [q]
  {
    assert blocks[..i + 1][..i] == blocks[..i];
  }
}
