/** `parse_response`: a line-oriented scanner that sorts a generated reply into
    the three fields `summary`, `issue` and `suggestion`. The scanner is a
    small state machine: the state is the section opened last (none at first)
    and the three fields; a `Label: text` line opens a section and overwrites
    its field, any other non-blank line continues the open section, and lines
    before the first label are dropped. */
module ResponseParser {
  import opened Wrappers
  import opened Text

  datatype Section = Summary | Issue | Suggestion

  /** The dictionary `parse_response` returns: always exactly three keys. */
  datatype Fields = Fields(summary: string, issue: string, suggestion: string) {
    function Get(s: Section): string {
      match s
      case Summary => summary
      case Issue => issue
      case Suggestion => suggestion
    }

    /** `result[s] = v`: that key changes and the others keep their value. */
    function Set(s: Section, v: string): (f: Fields)
      ensures f.Get(s) == v
      ensures forall t :: t != s ==> f.Get(t) == Get(t)
    {
      match s
      case Summary => this.(summary := v)
      case Issue => this.(issue := v)
      case Suggestion => this.(suggestion := v)
    }
  }

  /** Every key defaults to the empty string. */
  const NoFields := Fields("", "", "")

  /** The lower-case label that opens a section. */
  function Label(s: Section): string {
    match s
    case Summary => "summary:"
    case Issue => "issue:"
    case Suggestion => "suggestion:"
  }

  /** The section whose label starts the trimmed line, compared in lower case. */
  function LabelOf(line: string): Option<Section> {
    var low := Lower(line);
    if StartsWith(low, "summary:") then Some(Summary)
    else if StartsWith(low, "issue:") then Some(Issue)
    else if StartsWith(low, "suggestion:") then Some(Suggestion)
    else None
  }

  /** No line starts with two labels, so the order of the tests in `LabelOf`
      is immaterial: it names a section exactly when that section's label
      starts the lower-cased line. */
  lemma LabelOfIff(line: string, s: Section)
    ensures LabelOf(line) == Some(s) <==> StartsWith(Lower(line), Label(s))
  {
    var low := Lower(line);
    if StartsWith(low, Label(s)) {
      match s
      case Summary =>
      case Issue =>
        assert low[0] == 'i';
      case Suggestion =>
        assert low[0] == 's' && low[2] == 'g';
    }
  }

  /** The text after the label, trimmed. Lower-casing keeps the length, so the
      label's length is also its length in the original line. It is only
      asked of lines that start with the label; a shorter line has no text
      after it. */
  function LabelValue(line: string, s: Section): string {
    if |Label(s)| <= |line| then Strip(line[|Label(s)|..]) else ""
  }

  /** The state of the scan: the section opened last and the three fields. */
  datatype ScanState = ScanState(current: Option<Section>, fields: Fields)

  const Start := ScanState(None, NoFields)

  /** One transition of the scanner on one raw line of the reply. */
  function Step(st: ScanState, raw: string): ScanState {
    var line := Strip(raw);
    if line == [] then st
    else
      match LabelOf(line)
      case Some(s) => ScanState(Some(s), st.fields.Set(s, LabelValue(line, s)))
      case None =>
        match st.current
        case Some(c) => st.(fields := st.fields.Set(c, st.fields.Get(c) + "\n" + line))
        case None => st
  }

  /** The scanner run over a sequence of lines. */
  function Scan(st: ScanState, lines: seq<string>): ScanState
    decreases |lines|
  {
    if lines == [] then st else Scan(Step(st, lines[0]), lines[1..])
  }

  /** What `parse_response(content)` returns. */
  function Parse(content: string): Fields {
    Scan(Start, SplitLines(content)).fields
  }

  /** `parse_response`: the loop over the lines mutates the result and the
      open section. */
  method ParseResponse(content: string) returns (result: Fields)
    ensures result == Parse(content)
  {
    result := Fields("", "", "");
    var currentSection: Option<Section> := None;
    var lines := SplitLines(content);
    var i := 0;
    while i < |lines|
      invariant 0 <= i <= |lines|
      invariant Scan(ScanState(currentSection, result), lines[i..]) == Scan(Start, lines)
    {
      assert lines[i..][1..] == lines[i + 1..];
      var line := Strip(lines[i]);
      if line != [] {
        var low := Lower(line);
        if StartsWith(low, "summary:") {
          currentSection := Some(Summary);
          result := result.(summary := Strip(line[|"summary:"|..]));
        } else if StartsWith(low, "issue:") {
          currentSection := Some(Issue);
          result := result.(issue := Strip(line[|"issue:"|..]));
        } else if StartsWith(low, "suggestion:") {
          currentSection := Some(Suggestion);
          result := result.(suggestion := Strip(line[|"suggestion:"|..]));
        } else if currentSection.Some? {
          var c := currentSection.value;
          result := result.Set(c, result.Get(c) + "\n" + line);
        }
      }
      i := i + 1;
    }
  }

  /** The raw line, once trimmed, starts with the label of `s`. */
  predicate Opens(raw: string, s: Section) {
    var line := Strip(raw);
    line != [] && LabelOf(line) == Some(s)
  }

  /** The raw line, once trimmed, starts with some label. */
  predicate IsLabelLine(raw: string) {
    var line := Strip(raw);
    line != [] && LabelOf(line).Some?
  }

  /** What the lines add to an open section before the next label: every
      non-blank line, trimmed, after a '\n'. */
  function Continuation(lines: seq<string>): string {
    if lines == [] then ""
    else
      var line := Strip(lines[0]);
      if line == [] then Continuation(lines[1..])
      else if LabelOf(line).Some? then ""
      else "\n" + line + Continuation(lines[1..])
  }

  lemma ContinuationHead(lines: seq<string>)
    requires lines != []
    ensures Continuation(lines) ==
      if Strip(lines[0]) == [] then Continuation(lines[1..])
      else if IsLabelLine(lines[0]) then ""
      else "\n" + Strip(lines[0]) + Continuation(lines[1..])
  {
  }

  /** The position of the last element of `xs` that passes `p`, if any. */
  function LastWhere<T>(xs: seq<T>, p: T -> bool): (r: Option<nat>)
    ensures r.Some? ==> r.value < |xs| && p(xs[r.value])
    ensures r.Some? ==> forall j {:trigger p(xs[j])} :: r.value < j < |xs| ==> !p(xs[j])
    ensures r.None? ==> forall j {:trigger p(xs[j])} :: 0 <= j < |xs| ==> !p(xs[j])
  {
    if xs == [] then None
    else if p(xs[|xs| - 1]) then Some(|xs| - 1)
    else LastWhere(xs[..|xs| - 1], p)
  }

  /** Seen from the front, the last passing element is in the tail if the
      tail has one, and otherwise it is the head if that passes. */
  lemma {:induction false} LastWhereCons<T>(xs: seq<T>, p: T -> bool)
    requires xs != []
    ensures LastWhere(xs, p) ==
      match LastWhere(xs[1..], p)
      case Some(k) => Some(k + 1)
      case None => if p(xs[0]) then Some(0) else None
    decreases |xs|
  {
    var n := |xs|;
    if n > 1 {
      var init := xs[..n - 1];
      assert xs[1..][..n - 2] == init[1..];
      assert xs[1..][n - 2] == xs[n - 1];
      if !p(xs[n - 1]) {
        LastWhereCons(init, p);
      }
    }
  }

  /** The position of the last line that opens `s`, if any. */
  function LastOpening(lines: seq<string>, s: Section): Option<nat> {
    LastWhere(lines, raw => Opens(raw, s))
  }

  /** The value a field ends with, stated without the scanner: the text after
      the LAST label of its section, followed by the continuation lines up to
      the next label; the empty string when the section is never opened. */
  function FieldValue(lines: seq<string>, s: Section): string {
    FieldFrom(lines, LastOpening(lines, s), s)
  }

  /** The value of a field opened at position `at` of `lines`: the text after
      the label of that line, then the continuation of the lines after it. */
  function FieldFrom(lines: seq<string>, at: Option<nat>, s: Section): string {
    match at
    case Some(k) =>
      if k < |lines| then LabelValue(Strip(lines[k]), s) + Continuation(lines[k + 1..]) else ""
    case None => ""
  }

  /** A line that opens `s` makes `s` the open section and sets its field
      to the text after the label. */
  lemma StepOpens(st: ScanState, raw: string, s: Section)
    requires Opens(raw, s)
    ensures Step(st, raw).current == Some(s)
    ensures Step(st, raw).fields.Get(s) == LabelValue(Strip(raw), s)
  {
  }

  /** Any other line either continues the open section `s` (a non-blank,
      non-label line), leaves it as it is (a blank line), or closes it (a
      label of another section), and in the last two cases leaves the field
      of `s` alone. */
  lemma StepOther(st: ScanState, raw: string, s: Section)
    requires !Opens(raw, s)
    ensures Step(st, raw).current == Some(s) <==> st.current == Some(s) && !IsLabelLine(raw)
    ensures Step(st, raw).fields.Get(s) ==
      if st.current == Some(s) && Strip(raw) != [] && !IsLabelLine(raw)
      then st.fields.Get(s) + "\n" + Strip(raw)
      else st.fields.Get(s)
  {
  }

  /** The value `Scan(st, lines)` gives the field of `s`, by `FieldValue`
      when `lines` opens `s`, by the state it starts from otherwise. */
  function ScanValue(st: ScanState, lines: seq<string>, s: Section): string {
    if LastOpening(lines, s).Some? then FieldValue(lines, s)
    else if st.current == Some(s) then st.fields.Get(s) + Continuation(lines)
    else st.fields.Get(s)
  }

  /** When the tail opens `s`, the head line does not matter: whatever
      state `next` the head leads to, the tail decides the field. */
  lemma ScanValueLater(st: ScanState, next: ScanState, lines: seq<string>, s: Section)
    requires lines != [] && LastOpening(lines[1..], s).Some?
    ensures ScanValue(next, lines[1..], s) == ScanValue(st, lines, s)
  {
    LastWhereCons(lines, raw => Opens(raw, s));
    FieldFromTail(lines, LastOpening(lines[1..], s).value, s);
  }

  /** Opening at `k` in the tail is opening at `k + 1` in the whole. */
  lemma FieldFromTail(lines: seq<string>, k: nat, s: Section)
    requires k + 1 < |lines|
    ensures FieldFrom(lines[1..], Some(k), s) == FieldFrom(lines, Some(k + 1), s)
  {
    TailAt(lines, k);
  }

  /** Position `k` of the tail is position `k + 1` of the whole. */
  lemma TailAt<T>(xs: seq<T>, k: nat)
    requires k + 1 < |xs|
    ensures xs[1..][k] == xs[k + 1] && xs[1..][k + 1..] == xs[k + 2..]
  {
  }

  /** When the last opening of `s` is the head line, the field takes the
      head's label value followed by the continuation of the tail. */
  lemma ScanValueHeadOpens(st: ScanState, next: ScanState, lines: seq<string>, s: Section)
    requires lines != [] && LastOpening(lines[1..], s).None? && Opens(lines[0], s)
    requires next.current == Some(s) && next.fields.Get(s) == LabelValue(Strip(lines[0]), s)
    ensures ScanValue(next, lines[1..], s) == ScanValue(st, lines, s)
  {
    LastWhereCons(lines, raw => Opens(raw, s));
    assert LastOpening(lines, s) == Some(0);
  }

  /** A head line without a label adds itself (unless blank) in front of
      the continuation of the tail. */
  lemma ContinueField(before: string, lines: seq<string>)
    requires lines != [] && !IsLabelLine(lines[0])
    ensures (if Strip(lines[0]) != [] then before + "\n" + Strip(lines[0]) else before)
      + Continuation(lines[1..]) == before + Continuation(lines)
  {
    ContinuationHead(lines);
    var line := Strip(lines[0]);
    var tail := Continuation(lines[1..]);
    if line != [] {
      assert Continuation(lines) == "\n" + line + tail;
      AppendFour(before, "\n", line, tail);
    } else {
      assert Continuation(lines) == tail;
    }
  }

  lemma AppendFour(a: string, b: string, c: string, d: string)
    ensures a + b + c + d == a + (b + c + d)
  {
  }

  /** A head line with a label ends the continuation at once. */
  lemma LabelEndsContinuation(lines: seq<string>)
    requires lines != [] && IsLabelLine(lines[0])
    ensures Continuation(lines) == ""
  {
    ContinuationHead(lines);
  }

  /** When `s` opens nowhere in `lines`, the head line either continues the
      open section `s` or leaves its field alone. */
  lemma ScanValueHeadOther(st: ScanState, next: ScanState, lines: seq<string>, s: Section)
    requires lines != [] && LastOpening(lines[1..], s).None? && !Opens(lines[0], s)
    requires next.current == Some(s) <==> st.current == Some(s) && !IsLabelLine(lines[0])
    requires next.fields.Get(s) ==
      if st.current == Some(s) && Strip(lines[0]) != [] && !IsLabelLine(lines[0])
      then st.fields.Get(s) + "\n" + Strip(lines[0])
      else st.fields.Get(s)
    ensures ScanValue(next, lines[1..], s) == ScanValue(st, lines, s)
  {
    LastWhereCons(lines, raw => Opens(raw, s));
    assert LastOpening(lines, s).None?;
    var before := st.fields.Get(s);
    if st.current == Some(s) {
      if IsLabelLine(lines[0]) {
        LabelEndsContinuation(lines);
        assert before + "" == before;
      } else {
        ContinueField(before, lines);
      }
    }
  }

  /** The scanner computes `FieldValue` for every section, from any state:
      a field whose section opens in `lines` ends with the value of its last
      opening; otherwise an open section collects the continuation lines and
      any other field is left as it was. */
  lemma {:induction false} ScanField(st: ScanState, lines: seq<string>, s: Section)
    ensures Scan(st, lines).fields.Get(s) == ScanValue(st, lines, s)
    decreases |lines|
  {
    if lines == [] {
      assert st.fields.Get(s) + "" == st.fields.Get(s);
    } else {
      var next := Step(st, lines[0]);
      assert Scan(st, lines) == Scan(next, lines[1..]);
      ScanField(next, lines[1..], s);
      if LastOpening(lines[1..], s).Some? {
        ScanValueLater(st, next, lines, s);
      } else if Opens(lines[0], s) {
        StepOpens(st, lines[0], s);
        ScanValueHeadOpens(st, next, lines, s);
      } else {
        StepOther(st, lines[0], s);
        ScanValueHeadOther(st, next, lines, s);
      }
    }
  }

  /** Each parsed field is `FieldValue` of the reply's lines: a repeated
      label overwrites its field, only continuation lines up to the next
      label are appended, and a section never opened stays empty. */
  lemma ParseFieldValue(content: string, s: Section)
    ensures Parse(content).Get(s) == FieldValue(SplitLines(content), s)
  {
    ScanField(Start, SplitLines(content), s);
  }

  /** A reply with no label line leaves all three fields empty; this is a
      result, not an error. */
  lemma ParseWithoutLabels(content: string)
    requires forall k :: 0 <= k < |SplitLines(content)| ==> !IsLabelLine(SplitLines(content)[k])
    ensures Parse(content) == NoFields
  {
    var lines := SplitLines(content);
    ParseFieldValue(content, Summary);
    ParseFieldValue(content, Issue);
    ParseFieldValue(content, Suggestion);
    NeverOpened(lines, Summary);
    NeverOpened(lines, Issue);
    NeverOpened(lines, Suggestion);
    assert Parse(content).Get(Summary) == "" && Parse(content).Get(Issue) == "";
    assert Parse(content).Get(Suggestion) == "";
  }

  /** A section no line opens keeps the empty value. */
  lemma NeverOpened(lines: seq<string>, s: Section)
    requires forall k :: 0 <= k < |lines| ==> !IsLabelLine(lines[k])
    ensures FieldValue(lines, s) == ""
  {
    forall j | 0 <= j < |lines|
      ensures !Opens(lines[j], s)
    {
      assert !IsLabelLine(lines[j]);
    }
  }

  /** Running the scanner over two pieces in turn is running it over both. */
  lemma {:induction false} ScanAppend(st: ScanState, a: seq<string>, b: seq<string>)
    ensures Scan(st, a + b) == Scan(Scan(st, a), b)
    decreases |a|
  {
    if a != [] {
      assert (a + b)[0] == a[0];
      assert (a + b)[1..] == a[1..] + b;
      ScanAppend(Step(st, a[0]), a[1..], b);
    } else {
      assert a + b == b;
    }
  }

  /** With no section open, lines without a label change nothing. */
  lemma {:induction false} ScanUnlabelled(fields: Fields, lines: seq<string>)
    requires forall k :: 0 <= k < |lines| ==> !IsLabelLine(lines[k])
    ensures Scan(ScanState(None, fields), lines) == ScanState(None, fields)
    decreases |lines|
  {
    if lines != [] {
      ScanUnlabelled(fields, lines[1..]);
    }
  }

  /** Lines before the first label are discarded. */
  lemma DropsLinesBeforeFirstLabel(before: seq<string>, after: seq<string>)
    requires forall k :: 0 <= k < |before| ==> !IsLabelLine(before[k])
    ensures Scan(Start, before + after) == Scan(Start, after)
  {
    ScanAppend(Start, before, after);
    ScanUnlabelled(NoFields, before);
  }

  /** A trimmed line that starts with the label of `s` opens `s` with the
      text after the label. */
  lemma StepLabelLine(st: ScanState, raw: string, s: Section, v: string)
    requires Strip(raw) == raw && StartsWith(Lower(raw), Label(s))
    requires Strip(raw[|Label(s)|..]) == v
    ensures Step(st, raw) == ScanState(Some(s), st.fields.Set(s, v))
  {
    LabelOfIff(raw, s);
    assert raw != [];
  }

  /** A trimmed line without a label continues the open section. */
  lemma StepPlainLine(st: ScanState, raw: string)
    requires Strip(raw) == raw != [] && LabelOf(raw).None? && st.current.Some?
    ensures Step(st, raw).current == st.current
    ensures Step(st, raw).fields ==
      st.fields.Set(st.current.value, st.fields.Get(st.current.value) + "\n" + raw)
  {
  }

  /** A reply of two lines is parsed by two steps of the scanner. */
  lemma ParseTwoLines(l1: string, l2: string)
    requires '\n' !in l1 && '\n' !in l2 && l2 != []
    ensures Parse(l1 + "\n" + l2) == Step(Step(Start, l1), l2).fields
  {
    assert [l1, l2][1..] == [l2];
    assert Join([l1, l2]) == l1 + "\n" + l2;
    SplitLinesJoin([l1, l2]);
    var s1 := Step(Start, l1);
    assert Scan(Start, [l1, l2]) == Scan(s1, [l2]);
    assert Scan(s1, [l2]) == Scan(Step(s1, l2), []);
  }

  /** A reply of three lines is parsed by three steps of the scanner. */
  lemma ParseThreeLines(l1: string, l2: string, l3: string)
    requires '\n' !in l1 && '\n' !in l2 && '\n' !in l3 && l3 != []
    ensures Parse(l1 + "\n" + l2 + "\n" + l3) == Step(Step(Step(Start, l1), l2), l3).fields
  {
    assert [l1, l2, l3][1..] == [l2, l3];
    assert [l2, l3][1..] == [l3];
    assert Join([l2, l3]) == l2 + "\n" + l3;
    assert Join([l1, l2, l3]) == l1 + "\n" + l2 + "\n" + l3;
    SplitLinesJoin([l1, l2, l3]);
    var s1 := Step(Start, l1);
    var s2 := Step(s1, l2);
    assert [l3][1..] == [];
    assert Scan(Start, [l1, l2, l3]) == Scan(s1, [l2, l3]);
    assert Scan(s1, [l2, l3]) == Scan(s2, [l3]);
    assert Scan(s2, [l3]) == Scan(Step(s2, l3), []);
  }

  /** A single trimmed line without a label leaves every field empty. */
  lemma ParseOneUnlabelledLine(l: string)
    requires l != [] && '\n' !in l && Strip(l) == l && LabelOf(l).None?
    ensures Parse(l) == NoFields
  {
    assert Join([l]) == l;
    SplitLinesJoin([l]);
    assert Step(Start, l) == Start;
    assert [l][1..] == [];
    assert Scan(Start, [l]) == Scan(Start, []);
  }

  /** The heading the reply format asks for: the label as the prompt
      spells it, then a space. */
  function Heading(s: Section): string {
    match s
    case Summary => "Summary: "
    case Issue => "Issue: "
    case Suggestion => "Suggestion: "
  }

  /** The heading lower-cased is the label and a space. */
  lemma LowerHeading(s: Section)
    ensures Lower(Heading(s)) == Label(s) + " "
  {
    var h := Heading(s);
    match s
    case Summary => LowerWord(h, "summary: ");
    case Issue => LowerWord(h, "issue: ");
    case Suggestion => LowerWord(h, "suggestion: ");
  }

  /** Lower-casing `h` gives `w` when it does so letter by letter. */
  lemma LowerWord(h: string, w: string)
    requires |h| == |w| && forall i :: 0 <= i < |h| ==> LowerChar(h[i]) == w[i]
    ensures Lower(h) == w
  {
    LowerAt(h);
  }

  /** A heading and a trimmed value make a trimmed line. */
  lemma HeadingTrimmed(s: Section, v: string)
    requires v != [] && Strip(v) == v
    ensures Strip(Heading(s) + v) == Heading(s) + v
  {
    StripShape(v);
    var raw := Heading(s) + v;
    assert raw[|raw| - 1] == v[|v| - 1];
    StripTrimmed(raw);
  }

  /** After the label comes the value, behind one space that strip drops. */
  lemma HeadingValue(s: Section, v: string)
    requires v != [] && Strip(v) == v
    ensures (Heading(s) + v)[|Label(s)|..] == " " + v
    ensures Strip(" " + v) == v
  {
    assert (" " + v)[1..] == v;
    assert TrimStart(" " + v) == TrimStart(v);
  }

  /** A heading followed by a trimmed value opens that section with the value. */
  lemma StepHeading(st: ScanState, s: Section, v: string)
    requires v != [] && Strip(v) == v
    ensures Step(st, Heading(s) + v) == ScanState(Some(s), st.fields.Set(s, v))
  {
    var raw := Heading(s) + v;
    HeadingTrimmed(s, v);
    HeadingValue(s, v);
    LowerAppend(Heading(s), v);
    LowerHeading(s);
    assert Lower(raw)[..|Label(s)|] == Label(s);
    StepLabelLine(st, raw, s, v);
  }

  /** The reply in the requested format fills the three fields with the
      three trimmed values. */
  lemma ParseThreeLabels(a: string, b: string, c: string)
    requires a != [] && Strip(a) == a && '\n' !in a
    requires b != [] && Strip(b) == b && '\n' !in b
    requires c != [] && Strip(c) == c && '\n' !in c
    ensures Parse(("Summary: " + a) + "\n" + ("Issue: " + b) + "\n" + ("Suggestion: " + c))
      == Fields(a, b, c)
  {
    ParseThreeLines(Heading(Summary) + a, Heading(Issue) + b, Heading(Suggestion) + c);
    StepHeading(Start, Summary, a);
    StepHeading(ScanState(Some(Summary), Fields(a, "", "")), Issue, b);
    StepHeading(ScanState(Some(Issue), Fields(a, b, "")), Suggestion, c);
  }

  /** A line without a label continues the field opened before it, after a
      line break. */
  lemma ParseContinuationLine(a: string, m: string, b: string)
    requires a != [] && Strip(a) == a && '\n' !in a
    requires m != [] && Strip(m) == m && '\n' !in m && !IsLabelLine(m)
    requires b != [] && Strip(b) == b && '\n' !in b
    ensures Parse(("Summary: " + a) + "\n" + m + "\n" + ("Issue: " + b))
      == Fields(a + "\n" + m, b, "")
  {
    ParseThreeLines(Heading(Summary) + a, m, Heading(Issue) + b);
    StepHeading(Start, Summary, a);
    var st1 := ScanState(Some(Summary), Fields(a, "", ""));
    StepPlainLine(st1, m);
    StepHeading(ScanState(Some(Summary), Fields(a + "\n" + m, "", "")), Issue, b);
  }

  /** A repeated label overwrites its field instead of appending to it. */
  lemma ParseRepeatedLabel(s: Section, a: string, b: string)
    requires a != [] && Strip(a) == a && '\n' !in a
    requires b != [] && Strip(b) == b && '\n' !in b
    ensures Parse((Heading(s) + a) + "\n" + (Heading(s) + b)) == NoFields.Set(s, b)
  {
    ParseTwoLines(Heading(s) + a, Heading(s) + b);
    StepHeading(Start, s, a);
    StepHeading(ScanState(Some(s), NoFields.Set(s, a)), s, b);
    assert NoFields.Set(s, a).Set(s, b) == NoFields.Set(s, b);
  }

  /** A label counts only at the start of a line: one in mid-line is text. */
  lemma ParseMidLineLabel(x: string)
    requires x != [] && Strip(x) == x && '\n' !in x
    ensures Parse("see Summary: " + x) == NoFields
  {
    var p := "see Summary: ";
    var l := p + x;
    StripShape(x);
    assert l[|l| - 1] == x[|x| - 1];
    assert l[0] == 's' && l[1] == 'e';
    StripTrimmed(l);
    NoLabelAfterE(l);
    assert '\n' !in p;
    assert '\n' !in l;
    ParseOneUnlabelledLine(l);
  }

  /** Every label has a `u` or an `s` as its second letter, so a line whose
      second letter is `e` has none. */
  lemma NoLabelAfterE(l: string)
    requires |l| >= 2 && l[1] == 'e'
    ensures LabelOf(l).None?
  {
    LowerAt(l);
    assert Lower(l)[1] == 'e';
  }
}
