# MySQL slow-query log assistant: verified model of the analysis core

This project models the text-processing core of a MySQL slow-query log
assistant in Dafny. The assistant splits an uploaded log into chunks and has
a text generator analyse each chunk. It parses the free-form reply into
`summary`, `issue` and `suggestion` fields. It scores the issue with keyword
weights and extracts SQL advice from the suggestion.

The modules follow the two source files:

- `Text` (text.dfy) holds the Python string primitives the code relies on.
  These are `splitlines`, `strip`, `lower`, `startswith`, the `in` substring
  test and `"\n".join`. `Wrappers` holds the `Option` type.
- `LogParser` (log_parser.dfy) is `parse_log_file`. The comment/blank filter
  is a pure function. The windowing loop is a method, `GroupLines`, proved
  against the windows of the kept lines.
- `ResponseParser` (response_parser.dfy) is `parse_response`. The loop that
  mutates the result dictionary is a method. It is proved equal to a
  state-machine scanner (`Step`/`Scan`). The scanner is in turn proved to
  compute `FieldValue`, which states each field's value without the scanner.
- `RiskScorer` (risk_score.dfy) is `calculate_risk_score`. The six `if`
  statements are proved equal to a table of weighted rules, summed and capped.
- `SqlAdvice` (recommendations.dfy) is `generate_sql_recommendations`. The
  loop is proved equal to a per-line rule function.
- `Analysis` (analysis.dfy) covers `generate_prompt`, `build_prompt_with_log`
  and `analyze_log_chunks`. The generator is a function parameter. It takes
  the number of the call and the prompt, and either replies or raises. The
  same prompt may therefore fare differently on two calls.

Some behaviour follows the code where the documented contract says otherwise:

- `parse_log_file` raises only for a window size of 0, because `range` rejects
  a zero step. A negative size gives an empty range and so returns `[]`. The
  model requires a non-zero size and returns `[]` for a negative one. The
  size defaults to 30, as in the source.
- An index line that passes the `"on"` test is emitted stripped, in its
  original case, not untrimmed. The `"on"` test is a plain substring test, so
  a line such as "add index for json" passes it (`SqlAdvice.OnInsideWord`).

## Model

| member | source | states |
|---|---|---|
| Text.Strip | log_parser.py:17 | `str.strip()`: drops leading and trailing whitespace; its shape is stated by `Text.StripShape` |
| Text.Lower | llm.py:113 | `str.lower()` on ASCII letters, character by character; the result has the length of the input |
| Text.Contains | llm.py:116 | the `in` substring test: some position of the text starts with the phrase |
| Text.SplitLines | log_parser.py:14 | `str.splitlines()` with '\n' as the line break; no line holds a '\n' |
| Text.StripShape | log_parser.py:17 | `strip()` gives the empty string exactly when every character is whitespace; otherwise the result starts and ends with non-whitespace |
| Text.StripIdempotent | llm.py:35 | stripping already-stripped text changes nothing |
| Text.LowerIdempotent | llm.py:113 | lower-casing is idempotent |
| Text.LowerAppend | llm.py:113 | lower-casing works character by character across a concatenation |
| Text.ContainsAppend | llm.py:116 | a substring of either piece is a substring of their concatenation |
| Text.JoinSplit | log_parser.py:14 | joining the '\n'-separated pieces of a text with '\n' gives the text back |
| Text.SplitLinesJoin | log_parser.py:22 | `splitlines` of the '\n'-join of newline-free lines, the last one non-empty, returns exactly those lines |
| LogParser.KeptLines | log_parser.py:17 | the comprehension that keeps the lines whose stripped form is non-empty and does not start with `#`, untrimmed and in order |
| LogParser.Windows | log_parser.py:21-22 | the slices `lines[i:i + size]` for `i` in `range(0, len(lines), size)` |
| LogParser.LogChunks | log_parser.py:13-25 | what `parse_log_file` returns for a positive size: the kept lines' windows, each joined with '\n' |
| LogParser.ParseLogFile | log_parser.py:2-25 | a negative window size gives `[]`; a positive one gives the kept lines cut into windows and joined, chunk for chunk; the size defaults to 30 |
| LogParser.GroupLines | log_parser.py:20-23 | the grouping loop returns the windows of the kept lines, each joined with '\n', in order |
| LogParser.ChunksStep | log_parser.py:21-23 | one loop turn emits the window `lines[i:i+size]` (clamped at the end) and leaves the chunks from `i + size` on |
| LogParser.KeptIffFirstVisibleNotHash | log_parser.py:17 | a line is kept exactly when it has a first non-whitespace character and that character is not `#` |
| LogParser.KeptLinesAppend | log_parser.py:17 | filtering two pieces is filtering each in turn, in order |
| LogParser.KeptLinesSound | log_parser.py:17 | every kept line passes the filter and is one of the input lines, as written; there are no more kept lines than input lines |
| LogParser.KeptLinesComplete | log_parser.py:17 | every input line that passes the filter is kept |
| LogParser.KeptLinesNone | log_parser.py:17 | when no line passes the filter nothing is kept |
| LogParser.WindowsConcat | log_parser.py:21-22 | the windows laid end to end are exactly the kept lines |
| LogParser.WindowsSizes | log_parser.py:21-22 | every window has between 1 and `size` lines, and every window but the last has exactly `size` |
| LogParser.WindowsCount | log_parser.py:21 | the number of windows is the ceiling of lines / size |
| LogParser.KeptLinesShape | log_parser.py:14-17 | kept lines are non-empty and contain no '\n' |
| LogParser.WindowLines | log_parser.py:21-22 | every line of every window is non-empty and newline-free |
| LogParser.LinesOfWindows | log_parser.py:21-23 | re-splitting the joined windows and concatenating gives the lines back |
| LogParser.ChunksRoundTrip | log_parser.py:14-25 | the chunks, re-split into lines and concatenated in order, are exactly the kept lines of the log: none lost, duplicated or reordered |
| LogParser.ChunkSizes | log_parser.py:21-23 | the chunk count is the ceiling of kept lines / `max_chunk_lines`; every chunk has 1 to `max_chunk_lines` lines; all but the last have exactly `max_chunk_lines` |
| LogParser.NoKeptLinesNoChunks | log_parser.py:17-25 | a log whose lines are all blank or comments yields no chunk |
| LogParser.CommentOnlyLogs | log_parser.py:14-25 | the empty log and a log of one comment and a blank line yield `[]` |
| ResponseParser.Fields.Set | llm.py:96-107 | assigning one key sets it and leaves the other two keys unchanged |
| ResponseParser.LabelOfIff | llm.py:96-104 | a trimmed line names a section exactly when that section's label is a prefix of the lower-cased line, so the order of the three tests does not matter |
| ResponseParser.LabelOf | llm.py:96-104 | the three `startswith` tests on the lower-cased line, in source order |
| ResponseParser.Step | llm.py:92-107 | one iteration of the loop body on one raw line, as a transition of the open section and the three fields |
| ResponseParser.Scan | llm.py:91-107 | the loop over all lines, as repeated steps |
| ResponseParser.Parse | llm.py:83-109 | what `parse_response` returns: the fields after scanning the lines from the empty state |
| ResponseParser.ParseResponse | llm.py:83-109 | the loop over the lines returns the result of the scanner run from the empty state |
| ResponseParser.StepOpens | llm.py:96-104 | a label line makes its section the current one and sets that field to the trimmed text after the label |
| ResponseParser.StepOther | llm.py:92-107 | any other line keeps the section open only if it is not a label line, appends `"\n" + line` to an open section when non-blank, and otherwise leaves the field alone |
| ResponseParser.ScanField | llm.py:91-107 | from any state, the scanner leaves each field with the value of its last opening plus continuation lines, or with its earlier value extended by continuations when the section never opens again |
| ResponseParser.ParseFieldValue | llm.py:88-109 | each parsed field is the trimmed text after the LAST label of its section, then every later non-blank non-label line up to the next label, each after a '\n'; a section never labelled is `""` |
| ResponseParser.ParseWithoutLabels | llm.py:88-109 | a reply with no label line parses to three empty fields |
| ResponseParser.ScanAppend | llm.py:91 | scanning two runs of lines is scanning the first and then the second from where it stopped |
| ResponseParser.ScanUnlabelled | llm.py:105 | with no section open, lines without a label change nothing |
| ResponseParser.DropsLinesBeforeFirstLabel | llm.py:89-107 | lines before the first label line are discarded |
| ResponseParser.StepLabelLine | llm.py:96-104 | a trimmed label line opens its section and sets the field to the trimmed rest |
| ResponseParser.StepPlainLine | llm.py:105-107 | a non-blank non-label line under an open section appends `"\n" + line` to that field and keeps the section |
| ResponseParser.ParseOneUnlabelledLine | llm.py:91-107 | a single line without a label parses to three empty fields |
| ResponseParser.LowerHeading | llm.py:77-79 | each heading of the reply format, lower-cased, is its label followed by a space |
| ResponseParser.StepHeading | llm.py:96-104 | a heading followed by trimmed text opens the section and stores exactly that text |
| ResponseParser.ParseThreeLabels | llm.py:96-104 | "Summary: a\nIssue: b\nSuggestion: c" parses to a, b and c |
| ResponseParser.ParseContinuationLine | llm.py:105-107 | a non-label line after "Summary: a" is appended to the summary after a '\n' |
| ResponseParser.ParseRepeatedLabel | llm.py:96-104 | a repeated label overwrites its field with the later value instead of appending |
| ResponseParser.ParseMidLineLabel | llm.py:96 | for instance, the line "see Summary: x" opens no section; the general prefix-only rule is `ResponseParser.LabelOfIff` |
| RiskScorer.RawScore | llm.py:114-127 | the six `if` statements on the lower-cased text, before the cap |
| RiskScorer.RiskScore | llm.py:111-129 | the score never exceeds 100 |
| RiskScorer.RawScoreIsTotal | llm.py:116-127 | the six `if` statements add up the weights of the rules in the table (40, 20, 10, 15, 30, 10) whose phrases occur |
| RiskScorer.RiskScoreByRules | llm.py:113-129 | the score is the total of the firing rules on the lower-cased text, capped at 100 |
| RiskScorer.MaxTotalOfRules | llm.py:116-127 | all six weights together sum to 125 |
| RiskScorer.AllRulesSaturate | llm.py:129 | when every rule fires the score is clamped to 100 |
| RiskScorer.NoKeywordNoRisk | llm.py:114-129 | text that contains none of the keywords scores 0 |
| RiskScorer.RiskScoreIgnoresCase | llm.py:113 | lower-casing the text first does not change the score |
| RiskScorer.RiskScoreMonotone | llm.py:116-129 | appending text never lowers the score |
| RiskScorer.EmptyIssueNoRisk | llm.py:111-129 | the empty issue scores 0 |
| RiskScorer.FullTableScanScore | llm.py:116-117 | "full table scan", in any casing, scores 40 |
| RiskScorer.MissingIndexScore | llm.py:124-125 | "missing index", in any casing, scores 30 |
| RiskScorer.TwoRulesAdd | llm.py:116-129 | "no index and missing index" scores 40 + 30 = 70 |
| RiskScorer.ScanAndMissingIndexScore | llm.py:116-129 | "full table scan and missing index", in any casing, scores 40 + 30 = 70; "inefficient" does not match although the text has all its letters |
| SqlAdvice.Recommend | llm.py:138-155 | what one line contributes: the first matching rule decides, in source order |
| SqlAdvice.Recommendations | llm.py:135-157 | the contributions of the lines, in line order |
| SqlAdvice.GenerateSqlRecommendations | llm.py:132-157 | the loop returns the per-line advice of the lines of the suggestion, in line order |
| SqlAdvice.RecommendationsAppend | llm.py:137-155 | each line is decided on its own: the advice for two runs of lines is the advice for the first then the second |
| SqlAdvice.RecommendationsAtMostOnePerLine | llm.py:137-155 | there are never more recommendations than lines |
| SqlAdvice.RecommendationsFromLines | llm.py:137-155 | a text is among the recommendations exactly when some line yields it, and it occurs exactly as many times as there are lines that yield it, so duplicates are kept |
| SqlAdvice.NoMatchesNoAdvice | llm.py:135-157 | when no line matches a rule the list is empty |
| SqlAdvice.RecommendShape | llm.py:141-155 | every recommendation is either a stripped index line that contains "on", or one of the three fixed texts |
| SqlAdvice.IndexLineDecides | llm.py:141-143 | an index line yields itself, stripped, when it contains "on" and nothing otherwise; it never falls through to the later rules |
| SqlAdvice.SelectStarFirst | llm.py:146-147 | a line without an index phrase that contains "select *" yields the SELECT * advice |
| SqlAdvice.NoKeywordNoAdvice | llm.py:141-155 | a line that contains none of the phrases yields nothing |
| SqlAdvice.BlankLineNoAdvice | llm.py:138-155 | a blank line yields nothing |
| SqlAdvice.SelectStarLine | llm.py:146-147 | "select * from t", in any casing, yields "Avoid SELECT *; select only needed columns." |
| SqlAdvice.CreateIndexLine | llm.py:141-143 | "CREATE INDEX idx ON t(c)", in any casing, is emitted as the stripped line |
| SqlAdvice.AddIndexWithoutTarget | llm.py:141-143 | "add index" without "on" yields nothing |
| SqlAdvice.OnInsideWord | llm.py:142 | the "on" test is a substring test: "add index for json" is emitted |
| Analysis.GeneratePrompt | llm.py:57-80 | the chunk verbatim between the fixed head and the fixed questions and reply format |
| Analysis.PromptRoundTrip | llm.py:57-80 | the chunk can be read back out of its prompt, so the prompt holds it verbatim |
| Analysis.PromptInjective | llm.py:57-80 | different chunks give different prompts |
| Analysis.ReplyFormatHeadings | llm.py:75-79 | the reply format the prompt requests is the three headings the parser recognises, in order |
| Analysis.PromptEndsWithFormat | llm.py:75-80 | every prompt ends with that reply format |
| Analysis.SafeQuestion | llm.py:161 | `replace("'", '"')`: keeps the length, character for character |
| Analysis.SafeQuestionAt | llm.py:161 | every `'` of the question becomes `"`, every other character is kept, and no `'` remains |
| Analysis.SafeQuestionKeeps | llm.py:161 | a question without `'` is used unchanged |
| Analysis.BuildPromptWithLog | llm.py:160-175 | the fixed head, the replaced question in double quotes, the fixed middle, the log and the fixed tail |
| Analysis.BuildPromptParts | llm.py:160-175 | the prompt holds the replaced question between two double quotes after the fixed head, and the log verbatim after the fixed middle |
| Analysis.BuildPromptQuestionSafe | llm.py:161-166 | no `'` occurs between the quotes around the question |
| Analysis.BuildPromptContainsLog | llm.py:170 | the log occurs in the prompt |
| Analysis.ReplyContent | llm.py:33-37 | the text the code reads out of the reply object |
| Analysis.ReplyContentChoice | llm.py:33-37 | the content is the non-empty `text` if present, else the first part, else `""`, and it is always stripped |
| Analysis.AnalyzeReply | llm.py:39-44 | a reply gives a successful record whose three fields are the parse of its content, whose score is the risk score of the parsed issue (at most 100), and whose advice is that of the parsed suggestion |
| Analysis.AnalyzeChunk | llm.py:27-52 | a chunk's record is the degraded record (fixed summary, the error message, fixed hint) exactly when generation raises, and the analysed reply otherwise |
| Analysis.AnalyzeLogChunks | llm.py:14-54 | one record per chunk, in chunk order; the `i`-th record is decided by the `i`-th chunk and the `i`-th generation call alone, so a failing chunk does not affect the others |
| Analysis.SameChunkMayFareDifferently | llm.py:26-52 | the same chunk can get a failure record on one call and an analysed record on another, so records are not a function of the chunk alone |
| Analysis.ResultsBounded | llm.py:41-42 | every successful record has a score of at most 100 and no more recommendations than suggestion lines |
| Analysis.WellFormedReply | llm.py:39-42 | a reply in the requested three-heading format yields exactly its three values, with the score and advice derived from them |

## Left out

- The Streamlit interface (app.py), the retrieval-augmented question flow (rag/rag_ask.py), and the one-off ingestion scripts (rag/rag_loader.py, rag/pdf_to_text.py) are not part of this model. They are user interface, file I/O and calls into third-party libraries.
- Loading the API key and building the client (llm.py:1-12) is left out. The generation call `model.generate_content` (llm.py:30) becomes the `generate` parameter. It maps the call's number and its prompt to a reply or to a raised error with an opaque message. Quota, network and sampling are not modelled beyond that.
- The reply object's `text` and `parts` attributes, and the `hasattr` tests on them, are modelled as an optional text and a list of part texts.
- Analysis.AnalyzeLogChunks: only the generation call is modelled as failing. An exception raised while reading the reply object (llm.py:34-37) is not modelled.
- LogParser.ParseLogFile: a window size of 0, for which `range` raises, is excluded by the precondition rather than modelled as an error result.
- Line splitting treats only '\n' as a line break. `splitlines` also breaks at '\r', '\r\n', '\v', '\f' and some Unicode separators, and those are not modelled.
- Whitespace for `strip` is the ASCII set (space, 9-13, 28-31), and `lower` maps only A-Z. Unicode whitespace and case mapping are not modelled.
- The result dictionary becomes the `ChunkResult` datatype: `Analyzed` has the five keys of a success, `Failed` the three keys of a failure. `result.get(key, "")` always finds its key, because `parse_response` always returns all three.
- The prompt wording is modelled as fixed strings. Only the chunk's and the question's positions in the prompts are stated, plus the fact that the requested reply format matches the parser's labels.
