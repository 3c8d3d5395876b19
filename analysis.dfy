/** `analyze_log_chunks` and the two prompt builders: each log chunk is put
    into a fixed prompt, the prompt goes to a text generator, and the reply
    is parsed into summary, issue and suggestion, scored and mined for SQL
    advice. The generator is a remote model; here it is a parameter
    `generate` that maps the number of the call and its prompt to either a
    reply or a raised error, so two calls with the same prompt may fare
    differently. */
module Analysis {
  import opened Wrappers
  import opened Text
  import opened ResponseParser
  import opened RiskScorer
  import opened SqlAdvice

  /** The fixed text before the chunk in the analysis prompt. */
  const PromptHead := "\nYou are an expert MySQL performance analyst.\n\nHere is a chunk of a slow query log:\n------------------\n"

  /** The fixed text after the chunk: the questions, then the reply format. */
  const PromptQuestions := "\n------------------\n\nPlease provide the following:\n1. A summary of the log\n2. The most likely performance issue(s)\n3. Suggestions to optimize or resolve the issue(s)\n\nUse clear and short bullet points.\nAnswer in the format:\n\n"
  const PromptTail := PromptQuestions + ReplyFormat

  /** The reply format the prompt asks for, which the response parser reads. */
  const ReplyFormat := "Summary: ...\nIssue: ...\nSuggestion: ...\n"

  /** `generate_prompt(chunk)`: the chunk, verbatim, between the fixed texts. */
  function GeneratePrompt(chunk: string): (prompt: string)
    ensures |prompt| == |PromptHead| + |chunk| + |PromptTail|
  {
    PromptHead + chunk + PromptTail
  }

  /** The chunk read back out of a prompt. */
  function ChunkOfPrompt(prompt: string): Option<string> {
    if |PromptHead| + |PromptTail| <= |prompt|
       && prompt[..|PromptHead|] == PromptHead
       && prompt[|prompt| - |PromptTail|..] == PromptTail
    then Some(prompt[|PromptHead|..|prompt| - |PromptTail|])
    else None
  }

  /** The chunk can be read back from its prompt, so no two chunks share a
      prompt and the prompt holds the chunk in full. */
  lemma PromptRoundTrip(chunk: string)
    ensures ChunkOfPrompt(GeneratePrompt(chunk)) == Some(chunk)
    ensures Contains(GeneratePrompt(chunk), chunk)
  {
    var p := GeneratePrompt(chunk);
    assert p[..|PromptHead|] == PromptHead;
    assert p[|p| - |PromptTail|..] == PromptTail;
    assert p[|PromptHead|..|p| - |PromptTail|] == chunk;
    ContainsAt(p, chunk, |PromptHead|);
  }

  /** Different chunks give different prompts. */
  lemma PromptInjective(a: string, b: string)
    requires GeneratePrompt(a) == GeneratePrompt(b)
    ensures a == b
  {
    PromptRoundTrip(a);
    PromptRoundTrip(b);
  }

  /** The reply format asks for one line per field, each opened by the
      heading the response parser looks for. */
  lemma ReplyFormatHeadings()
    ensures ReplyFormat == Heading(Summary) + "...\n" + Heading(Issue) + "...\n" + Heading(Suggestion) + "...\n"
  {
  }

  /** The prompt ends with the reply format. */
  lemma PromptEndsWithFormat(chunk: string)
    ensures GeneratePrompt(chunk)[|GeneratePrompt(chunk)| - |ReplyFormat|..] == ReplyFormat
  {
    var p := GeneratePrompt(chunk);
    var front := PromptHead + chunk + PromptQuestions;
    assert p == front + ReplyFormat;
    assert p[|front|..] == ReplyFormat;
  }

  /** `user_question.replace("'", '"')`. */
  function SafeQuestion(question: string): (safe: string)
    ensures |safe| == |question|
  {
    if question == [] then []
    else [if question[0] == '\'' then '"' else question[0]] + SafeQuestion(question[1..])
  }

  /** Each apostrophe becomes a double quote and every other character is
      kept, so the result has no apostrophe left. */
  lemma {:induction false} SafeQuestionAt(question: string)
    ensures forall i :: 0 <= i < |question| ==>
      SafeQuestion(question)[i] == if question[i] == '\'' then '"' else question[i]
    ensures '\'' !in SafeQuestion(question)
  {
    if question != [] {
      SafeQuestionAt(question[1..]);
    }
  }

  /** A question without apostrophes is used unchanged. */
  lemma SafeQuestionKeeps(question: string)
    requires '\'' !in question
    ensures SafeQuestion(question) == question
  {
    SafeQuestionAt(question);
  }

  /** The fixed text of the log-question prompt before the quoted question. */
  const QuestionHead := "\n        You are a MySQL performance expert. A user has uploaded a slow query log and has a question.\n\n        Here is the user's question:\n        "

  /** From the quoted question up to the log. */
  const QuestionMiddle := "\n\n        Here is the related MySQL log:\n        ----------------------\n        "

  /** After the log. */
  const QuestionTail := "\n        ----------------------\n\n        Based on the log, please provide an expert-level answer to the question.\n        Use clear, concise language.\n        "

  /** A fixed head, a double-quoted question, a fixed middle, the log and a
      fixed tail, in that order. */
  function QuoteAndAppend(head: string, question: string, middle: string, log: string, tail: string): string {
    head + "\"" + question + "\"" + middle + log + tail
  }

  /** In such a text the question sits between double quotes right after the
      head, and the log right after the middle. */
  lemma QuoteAndAppendParts(head: string, question: string, middle: string, log: string, tail: string)
    ensures var p := QuoteAndAppend(head, question, middle, log, tail);
      && p[|head|] == '"'
      && p[|head| + 1..|head| + 1 + |question|] == question
      && p[|head| + 1 + |question|] == '"'
      && p[|head| + |question| + 2 + |middle|..|head| + |question| + 2 + |middle| + |log|] == log
  {
    var p := QuoteAndAppend(head, question, middle, log, tail);
    var a := head + "\"";
    var b := "\"" + middle;
    assert p == a + question + b + (log + tail);
    MiddleSlice(a, question, b, log + tail);
    assert p == (a + question + b) + log + tail + [];
    MiddleSlice(a + question + b, log, tail, []);
  }

  /** `build_prompt_with_log(user_question, log_data)`: the question goes in
      double quotes, so its apostrophes are replaced first. */
  function BuildPromptWithLog(question: string, logData: string): (prompt: string)
    ensures |prompt| == |QuestionHead| + |question| + |QuestionMiddle| + |logData| + |QuestionTail| + 2
  {
    QuoteAndAppend(QuestionHead, SafeQuestion(question), QuestionMiddle, logData, QuestionTail)
  }

  /** The question sits, apostrophes replaced, between double quotes, and the
      log follows verbatim (the replaced question is as long as the
      question). */
  lemma BuildPromptParts(question: string, logData: string)
    ensures var p := BuildPromptWithLog(question, logData);
      var safe := SafeQuestion(question);
      var h := |QuestionHead|;
      var l := h + |safe| + 2 + |QuestionMiddle|;
      && p[h] == '"'
      && p[h + 1..h + 1 + |safe|] == safe
      && p[h + 1 + |safe|] == '"'
      && p[l..l + |logData|] == logData
  {
    QuoteAndAppendParts(QuestionHead, SafeQuestion(question), QuestionMiddle, logData, QuestionTail);
  }

  /** No apostrophe is left in the quoted question to end the quotation early. */
  lemma BuildPromptQuestionSafe(question: string, logData: string)
    ensures '\'' !in BuildPromptWithLog(question, logData)[|QuestionHead| + 1..|QuestionHead| + 1 + |SafeQuestion(question)|]
  {
    BuildPromptParts(question, logData);
    SafeQuestionAt(question);
  }

  lemma BuildPromptContainsLog(question: string, logData: string)
    ensures Contains(BuildPromptWithLog(question, logData), logData)
  {
    BuildPromptParts(question, logData);
    ContainsAt(BuildPromptWithLog(question, logData), logData,
               |QuestionHead| + |SafeQuestion(question)| + 2 + |QuestionMiddle|);
  }

  /** The reply object as far as the code reads it: an optional `text`
      attribute and the text of each of its `parts`. */
  datatype Reply = Reply(text: Option<string>, parts: seq<string>)

  /** What the generator does with a prompt: answer, or raise an error with a
      message. */
  datatype Outcome = Raised(message: string) | Replied(reply: Reply)

  /** The text to parse: `text` when it is present and non-empty, else the
      first part, else nothing; trimmed. */
  function ReplyContent(r: Reply): string {
    if r.text.Some? && r.text.value != [] then Strip(r.text.value)
    else if r.parts != [] then Strip(r.parts[0])
    else ""
  }

  /** The `text` attribute wins; the first part is the fallback; the content
      is always trimmed. */
  lemma ReplyContentChoice(r: Reply)
    ensures r.text.Some? && r.text.value != [] ==> ReplyContent(r) == Strip(r.text.value)
    ensures (r.text.None? || r.text.value == []) && r.parts != [] ==> ReplyContent(r) == Strip(r.parts[0])
    ensures (r.text.None? || r.text.value == []) && r.parts == [] ==> ReplyContent(r) == []
    ensures Strip(ReplyContent(r)) == ReplyContent(r)
  {
    if r.text.Some? && r.text.value != [] {
      StripIdempotent(r.text.value);
    } else if r.parts != [] {
      StripIdempotent(r.parts[0]);
    }
  }

  /** One entry of the list `analyze_log_chunks` returns: the five-key
      dictionary of a parsed reply, or the three-key dictionary of a
      failure. */
  datatype ChunkResult =
    | Analyzed(summary: string, issue: string, suggestion: string, score: nat, sqlRecommendation: seq<string>)
    | Failed(summary: string, issue: string, suggestion: string)

  /** The summary and suggestion a failure reports. */
  const ErrorSummary := "\U{274C} Error during analysis."
  const ErrorHint := "Please check the input or API key."

  /** A reply parsed, scored and mined for advice. */
  function AnalyzeReply(r: Reply): (res: ChunkResult)
    ensures res.Analyzed? && res.score <= MaxScore
    ensures Fields(res.summary, res.issue, res.suggestion) == Parse(ReplyContent(r))
    ensures res.score == RiskScore(res.issue)
    ensures res.sqlRecommendation == Recommendations(SplitLines(res.suggestion))
  {
    var f := Parse(ReplyContent(r));
    Analyzed(f.summary, f.issue, f.suggestion, RiskScore(f.issue),
             Recommendations(SplitLines(f.suggestion)))
  }

  /** What `analyze_log_chunks` makes of one chunk. */
  function AnalyzeChunk(chunk: string, generate: string -> Outcome): (res: ChunkResult)
    ensures res.Failed? <==> generate(GeneratePrompt(chunk)).Raised?
    ensures res.Failed? ==>
      res == Failed(ErrorSummary, generate(GeneratePrompt(chunk)).message, ErrorHint)
    ensures res.Analyzed? ==> res == AnalyzeReply(generate(GeneratePrompt(chunk)).reply)
  {
    match generate(GeneratePrompt(chunk))
    case Raised(message) => Failed(ErrorSummary, message, ErrorHint)
    case Replied(r) => AnalyzeReply(r)
  }

  /** The generator as seen by call number `n`: the model is remote and
      sampled, so the same prompt may succeed on one call and raise on
      another. */
  function Call(generate: (nat, string) -> Outcome, n: nat): string -> Outcome {
    prompt => generate(n, prompt)
  }

  /** `analyze_log_chunks(chunks)`: one result per chunk, in order; the
      `i`-th chunk's entry is decided by the `i`-th generation call alone,
      and a chunk whose generation fails gets the failure entry while the
      loop goes on. */
  method AnalyzeLogChunks(chunks: seq<string>, generate: (nat, string) -> Outcome)
    returns (results: seq<ChunkResult>)
    ensures |results| == |chunks|
    ensures forall i :: 0 <= i < |chunks| ==> results[i] == AnalyzeChunk(chunks[i], Call(generate, i))
  {
    results := [];
    var i := 0;
    while i < |chunks|
      invariant 0 <= i <= |chunks|
      invariant |results| == i
      invariant forall k :: 0 <= k < i ==> results[k] == AnalyzeChunk(chunks[k], Call(generate, k))
    {
      var prompt := GeneratePrompt(chunks[i]);
      var outcome := generate(i, prompt);
      ghost var expected := AnalyzeChunk(chunks[i], Call(generate, i));
      assert outcome == Call(generate, i)(prompt);
      match outcome {
        case Raised(message) =>
          results := results + [Failed(ErrorSummary, message, ErrorHint)];
        case Replied(r) =>
          var content := ReplyContent(r);
          var fields := ParseResponse(content);
          var score := RiskScore(fields.issue);
          var recs := GenerateSqlRecommendations(fields.suggestion);
          results := results + [Analyzed(fields.summary, fields.issue, fields.suggestion, score, recs)];
      }
      assert results[i] == expected;
      i := i + 1;
    }
  }

  /** Records are not a function of the chunk alone: a generator that raises
      on its first call and replies afterwards gives the same chunk a
      failure entry at position 0 and an analysed entry at position 1. */
  lemma SameChunkMayFareDifferently(chunk: string)
    ensures var flaky := (n: nat, prompt: string) =>
              if n == 0 then Raised("quota exceeded") else Replied(Reply(None, []));
            AnalyzeChunk(chunk, Call(flaky, 0)).Failed?
            && AnalyzeChunk(chunk, Call(flaky, 1)) == Analyzed("", "", "", 0, [])
  {
  }

  /** Every score in the results lies in 0..100 and no result carries more
      advice than its suggestion has lines. */
  lemma ResultsBounded(chunks: seq<string>, generate: (nat, string) -> Outcome, i: nat)
    requires i < |chunks|
    ensures var res := AnalyzeChunk(chunks[i], Call(generate, i));
      res.Analyzed? ==> res.score <= 100 && |res.sqlRecommendation| <= |SplitLines(res.suggestion)|
  {
    var res := AnalyzeChunk(chunks[i], Call(generate, i));
    if res.Analyzed? {
      RecommendationsAtMostOnePerLine(SplitLines(res.suggestion));
    }
  }

  /** A reply in the requested format, given as `text`, is analysed field by
      field: its issue is scored and its suggestion mined. */
  lemma WellFormedReply(a: string, b: string, c: string)
    requires a != [] && Strip(a) == a && '\n' !in a
    requires b != [] && Strip(b) == b && '\n' !in b
    requires c != [] && Strip(c) == c && '\n' !in c
    ensures AnalyzeReply(Reply(Some(("Summary: " + a) + "\n" + ("Issue: " + b) + "\n" + ("Suggestion: " + c)), []))
      == Analyzed(a, b, c, RiskScore(b), Recommendations(SplitLines(c)))
  {
    var text := ("Summary: " + a) + "\n" + ("Issue: " + b) + "\n" + ("Suggestion: " + c);
    StripShape(c);
    assert text[|text| - 1] == c[|c| - 1];
    StripTrimmed(text);
    ParseThreeLabels(a, b, c);
  }
}
