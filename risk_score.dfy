/** `calculate_risk_score`: a 0..100 risk score for the issue a reply names,
    from six keyword rules matched against the lower-cased issue text. Each
    rule adds its weight once, however many of its phrases occur, and the sum
    is capped at 100. */
module RiskScorer {
  import opened Text

  /** The cap on the score. */
  const MaxScore: nat := 100

  /** The weight a rule adds when it fires. */
  function Points(fires: bool, weight: nat): nat {
    if fires then weight else 0
  }

  /** The six `if` statements in order, each on the lower-cased text. */
  function RawScore(low: string): nat {
    Points(Contains(low, "full table scan") || Contains(low, "no index"), 40)
    + Points(Contains(low, "repeated query") || Contains(low, "duplicate query"), 20)
    + Points(Contains(low, "select *"), 10)
    + Points(Contains(low, "like '%") || Contains(low, "leading wildcard"), 15)
    + Points(Contains(low, "missing index"), 30)
    + Points(Contains(low, "inefficient"), 10)
  }

  /** What `calculate_risk_score(issue_text)` returns. */
  function RiskScore(issueText: string): (score: nat)
    ensures score <= MaxScore
  {
    var raw := RawScore(Lower(issueText));
    if raw < MaxScore then raw else MaxScore
  }

  /** The same scoring as data: a rule fires when any of its phrases occurs. */
  datatype Rule = Rule(phrases: seq<string>, weight: nat)

  const Rules: seq<Rule> := [
    Rule(["full table scan", "no index"], 40),
    Rule(["repeated query", "duplicate query"], 20),
    Rule(["select *"], 10),
    Rule(["like '%", "leading wildcard"], 15),
    Rule(["missing index"], 30),
    Rule(["inefficient"], 10)
  ]

  /** Some phrase of the list occurs in the text. */
  predicate AnyOccurs(low: string, phrases: seq<string>) {
    exists k :: 0 <= k < |phrases| && Contains(low, phrases[k])
  }

  /** The weights of the rules that fire, added up. */
  function Total(rules: seq<Rule>, low: string): nat {
    if rules == [] then 0
    else Points(AnyOccurs(low, rules[0].phrases), rules[0].weight) + Total(rules[1..], low)
  }

  /** The largest sum the rules can reach. */
  function MaxTotal(rules: seq<Rule>): nat {
    if rules == [] then 0 else rules[0].weight + MaxTotal(rules[1..])
  }

  /** A rule with one or two phrases fires when the first or the second occurs. */
  lemma AnyOccursPair(low: string, p: string, q: string)
    ensures AnyOccurs(low, [p, q]) <==> Contains(low, p) || Contains(low, q)
  {
    if Contains(low, p) {
      assert [p, q][0] == p;
    }
    if Contains(low, q) {
      assert [p, q][1] == q;
    }
  }

  lemma AnyOccursOne(low: string, p: string)
    ensures AnyOccurs(low, [p]) <==> Contains(low, p)
  {
    if Contains(low, p) {
      assert [p][0] == p;
    }
  }

  /** The rule table's total, rule by rule. */
  lemma TotalOfRules(low: string)
    ensures Total(Rules, low) ==
      Points(AnyOccurs(low, Rules[0].phrases), 40) + Points(AnyOccurs(low, Rules[1].phrases), 20)
      + Points(AnyOccurs(low, Rules[2].phrases), 10) + Points(AnyOccurs(low, Rules[3].phrases), 15)
      + Points(AnyOccurs(low, Rules[4].phrases), 30) + Points(AnyOccurs(low, Rules[5].phrases), 10)
  {
    var r := Rules;
    assert Total(r[5..], low) == Points(AnyOccurs(low, r[5].phrases), 10);
    assert Total(r[4..], low) == Points(AnyOccurs(low, r[4].phrases), 30) + Total(r[5..], low);
    assert Total(r[3..], low) == Points(AnyOccurs(low, r[3].phrases), 15) + Total(r[4..], low);
    assert Total(r[2..], low) == Points(AnyOccurs(low, r[2].phrases), 10) + Total(r[3..], low);
    assert Total(r[1..], low) == Points(AnyOccurs(low, r[1].phrases), 20) + Total(r[2..], low);
  }

  /** The six `if` statements compute the rule table's total. */
  lemma RawScoreIsTotal(low: string)
    ensures RawScore(low) == Total(Rules, low)
  {
    TotalOfRules(low);
    AnyOccursPair(low, "full table scan", "no index");
    AnyOccursPair(low, "repeated query", "duplicate query");
    AnyOccursOne(low, "select *");
    AnyOccursPair(low, "like '%", "leading wildcard");
    AnyOccursOne(low, "missing index");
    AnyOccursOne(low, "inefficient");
  }

  /** The score is the total of the rules that fire, capped at 100. */
  lemma RiskScoreByRules(issueText: string)
    ensures RiskScore(issueText) ==
      var total := Total(Rules, Lower(issueText));
      if total < MaxScore then total else MaxScore
  {
    RawScoreIsTotal(Lower(issueText));
  }

  /** When every rule fires, the total is the sum of all weights. */
  lemma {:induction false} TotalAllFire(rules: seq<Rule>, low: string)
    requires forall i :: 0 <= i < |rules| ==> AnyOccurs(low, rules[i].phrases)
    ensures Total(rules, low) == MaxTotal(rules)
    decreases |rules|
  {
    if rules != [] {
      TotalAllFire(rules[1..], low);
    }
  }

  /** All six rules add up to 125, so the cap is reached only when several
      rules fire together. */
  lemma MaxTotalOfRules()
    ensures MaxTotal(Rules) == 125
  {
    var r := Rules;
    assert MaxTotal(r[5..]) == 10;
    assert MaxTotal(r[4..]) == 40;
    assert MaxTotal(r[3..]) == 55;
    assert MaxTotal(r[2..]) == 65;
    assert MaxTotal(r[1..]) == 85;
  }

  /** Text that sets off every rule scores the full 100. */
  lemma AllRulesSaturate(issueText: string)
    requires forall i :: 0 <= i < |Rules| ==> AnyOccurs(Lower(issueText), Rules[i].phrases)
    ensures RiskScore(issueText) == MaxScore
  {
    RiskScoreByRules(issueText);
    TotalAllFire(Rules, Lower(issueText));
    MaxTotalOfRules();
  }

  /** Text in which no phrase of any rule occurs scores 0. */
  lemma {:induction false} TotalNoneFire(rules: seq<Rule>, low: string)
    requires forall i :: 0 <= i < |rules| ==> !AnyOccurs(low, rules[i].phrases)
    ensures Total(rules, low) == 0
    decreases |rules|
  {
    if rules != [] {
      TotalNoneFire(rules[1..], low);
    }
  }

  lemma NoKeywordNoRisk(issueText: string)
    requires forall i :: 0 <= i < |Rules| ==> !AnyOccurs(Lower(issueText), Rules[i].phrases)
    ensures RiskScore(issueText) == 0
  {
    RiskScoreByRules(issueText);
    TotalNoneFire(Rules, Lower(issueText));
  }

  /** The text is lower-cased first, so case does not matter. */
  lemma RiskScoreIgnoresCase(issueText: string)
    ensures RiskScore(Lower(issueText)) == RiskScore(issueText)
  {
    LowerIdempotent(issueText);
  }

  /** A phrase that occurs keeps occurring when text is appended. */
  lemma AnyOccursAppend(low: string, more: string, phrases: seq<string>)
    ensures AnyOccurs(low, phrases) ==> AnyOccurs(low + more, phrases)
  {
    if AnyOccurs(low, phrases) {
      var k :| 0 <= k < |phrases| && Contains(low, phrases[k]);
      ContainsAppend(low, more, phrases[k]);
    }
  }

  lemma {:induction false} TotalAppend(rules: seq<Rule>, low: string, more: string)
    ensures Total(rules, low) <= Total(rules, low + more)
    decreases |rules|
  {
    if rules != [] {
      AnyOccursAppend(low, more, rules[0].phrases);
      TotalAppend(rules[1..], low, more);
    }
  }

  /** Appending text to an issue never lowers its score. */
  lemma RiskScoreMonotone(issueText: string, more: string)
    ensures RiskScore(issueText) <= RiskScore(issueText + more)
  {
    RiskScoreByRules(issueText);
    RiskScoreByRules(issueText + more);
    LowerAppend(issueText, more);
    TotalAppend(Rules, Lower(issueText), Lower(more));
  }

  /** An empty issue scores 0. */
  lemma EmptyIssueNoRisk()
    ensures RiskScore("") == 0
  {
    forall i | 0 <= i < |Rules|
      ensures !AnyOccurs(Lower(""), Rules[i].phrases)
    {
      forall k | 0 <= k < |Rules[i].phrases|
        ensures !Contains("", Rules[i].phrases[k])
      {
        NotContainsShort("", Rules[i].phrases[k]);
      }
    }
    NoKeywordNoRisk("");
  }

  /** Text without the letters o, q, m and i and without `*`, `'` and `w`
      matches only the first rule, if any. */
  lemma OnlyFirstRuleLetters(low: string)
    requires 'o' !in low && 'q' !in low && '*' !in low && '\'' !in low
    requires 'w' !in low && 'm' !in low && 'i' !in low
    ensures !Contains(low, "no index") && !Contains(low, "repeated query")
    ensures !Contains(low, "duplicate query") && !Contains(low, "select *")
    ensures !Contains(low, "like '%") && !Contains(low, "leading wildcard")
    ensures !Contains(low, "missing index") && !Contains(low, "inefficient")
  {
    NotContainsMissingChar(low, "no index", 'o');
    NotContainsMissingChar(low, "repeated query", 'q');
    NotContainsMissingChar(low, "duplicate query", 'q');
    NotContainsMissingChar(low, "select *", '*');
    NotContainsMissingChar(low, "like '%", '\'');
    NotContainsMissingChar(low, "leading wildcard", 'w');
    NotContainsMissingChar(low, "missing index", 'm');
    NotContainsMissingChar(low, "inefficient", 'i');
  }

  /** The letters "full table scan" lacks. */
  lemma FullTableScanLetters(low: string)
    requires forall c :: c in low ==> c in "full table scan"
    ensures 'o' !in low && 'q' !in low && '*' !in low && '\'' !in low
    ensures 'w' !in low && 'm' !in low && 'i' !in low
  {
  }

  /** "Full table scan", in any casing, scores 40. */
  lemma FullTableScanScore(issueText: string)
    requires Lower(issueText) == "full table scan"
    ensures RiskScore(issueText) == 40
  {
    var low := Lower(issueText);
    ContainsAt(low, "full table scan", 0);
    FullTableScanLetters(low);
    OnlyFirstRuleLetters(low);
  }

  /** Text without the letters f, o and q and without `*`, `'` and `w`
      matches no rule but the "missing index" one, if any. */
  lemma OnlyMissingIndexLetters(low: string)
    requires 'f' !in low && 'o' !in low && 'q' !in low && '*' !in low
    requires '\'' !in low && 'w' !in low
    ensures !Contains(low, "full table scan") && !Contains(low, "no index")
    ensures !Contains(low, "repeated query") && !Contains(low, "duplicate query")
    ensures !Contains(low, "select *") && !Contains(low, "like '%")
    ensures !Contains(low, "leading wildcard") && !Contains(low, "inefficient")
  {
    NotContainsMissingChar(low, "full table scan", 'f');
    NotContainsMissingChar(low, "no index", 'o');
    NotContainsMissingChar(low, "repeated query", 'q');
    NotContainsMissingChar(low, "duplicate query", 'q');
    NotContainsMissingChar(low, "select *", '*');
    NotContainsMissingChar(low, "like '%", '\'');
    NotContainsMissingChar(low, "leading wildcard", 'w');
    NotContainsMissingChar(low, "inefficient", 'f');
  }

  /** The letters "missing index" lacks. */
  lemma MissingIndexLetters(low: string)
    requires forall c :: c in low ==> c in "missing index"
    ensures 'f' !in low && 'o' !in low && 'q' !in low && '*' !in low
    ensures '\'' !in low && 'w' !in low
  {
  }

  /** "Missing index", in any casing, scores 30. */
  lemma MissingIndexScore(issueText: string)
    requires Lower(issueText) == "missing index"
    ensures RiskScore(issueText) == 30
  {
    var low := Lower(issueText);
    ContainsAt(low, "missing index", 0);
    MissingIndexLetters(low);
    OnlyMissingIndexLetters(low);
  }

  /** Text without the letter f and without `q`, `*`, `'` and `w` matches at
      most the two index rules. */
  lemma OnlyIndexRulesLetters(low: string)
    requires 'f' !in low && 'q' !in low && '*' !in low && '\'' !in low && 'w' !in low
    ensures !Contains(low, "full table scan")
    ensures !Contains(low, "repeated query") && !Contains(low, "duplicate query")
    ensures !Contains(low, "select *") && !Contains(low, "like '%")
    ensures !Contains(low, "leading wildcard") && !Contains(low, "inefficient")
  {
    NotContainsMissingChar(low, "full table scan", 'f');
    NotContainsMissingChar(low, "repeated query", 'q');
    NotContainsMissingChar(low, "duplicate query", 'q');
    NotContainsMissingChar(low, "select *", '*');
    NotContainsMissingChar(low, "like '%", '\'');
    NotContainsMissingChar(low, "leading wildcard", 'w');
    NotContainsMissingChar(low, "inefficient", 'f');
  }

  /** The letters "no index and missing index" lacks. */
  lemma TwoIndexPhrasesLetters(low: string)
    requires forall c :: c in low ==> c in "no index and missing index"
    ensures 'f' !in low && 'q' !in low && '*' !in low && '\'' !in low && 'w' !in low
  {
  }

  /** Two rules that fire add up: "no index" (40) and "missing index" (30)
      in one text score 70. */
  lemma TwoRulesAdd(issueText: string)
    requires Lower(issueText) == "no index and missing index"
    ensures RiskScore(issueText) == 70
  {
    var low := Lower(issueText);
    var head, tail := "no index and ", "missing index";
    assert low == head + tail;
    ContainsAt(low, "no index", 0);
    ContainsAt(tail, "missing index", 0);
    ContainsAppend(head, tail, "missing index");
    TwoIndexPhrasesLetters(low);
    OnlyIndexRulesLetters(low);
  }

  /** A phrase without a space that is longer than every word of a
      six-word text does not occur in it. */
  lemma NotInShortWords(w1: string, w2: string, w3: string, w4: string, w5: string, w6: string,
                        p: string)
    requires ' ' !in p
    requires |w1| < |p| && |w2| < |p| && |w3| < |p| && |w4| < |p| && |w5| < |p| && |w6| < |p|
    ensures !Contains(w1 + " " + w2 + " " + w3 + " " + w4 + " " + w5 + " " + w6, p)
  {
    NotContainsShort(w1, p);
    NotContainsShort(w2, p);
    NotContainsShort(w3, p);
    NotContainsShort(w4, p);
    NotContainsShort(w5, p);
    NotContainsShort(w6, p);
    var s2 := w1 + " " + w2;
    NotContainsAcross(w1, ' ', w2, p);
    var s3 := s2 + " " + w3;
    NotContainsAcross(s2, ' ', w3, p);
    var s4 := s3 + " " + w4;
    NotContainsAcross(s3, ' ', w4, p);
    var s5 := s4 + " " + w5;
    NotContainsAcross(s4, ' ', w5, p);
    NotContainsAcross(s5, ' ', w6, p);
  }

  /** A character that is not a space and occurs in no word of a six-word
      text does not occur in the text. */
  lemma NotInWords(w1: string, w2: string, w3: string, w4: string, w5: string, w6: string,
                   c: char)
    requires c != ' ' && c !in w1 && c !in w2 && c !in w3 && c !in w4 && c !in w5 && c !in w6
    ensures c !in w1 + " " + w2 + " " + w3 + " " + w4 + " " + w5 + " " + w6
  {
  }

  /** "full table scan and missing index" word by word. */
  lemma ScanAndMissingWords(low: string)
    requires low == "full table scan and missing index"
    ensures low == "full" + " " + "table" + " " + "scan" + " " + "and" + " " + "missing" + " " + "index"
  {
  }

  /** "full table scan and missing index" holds both of its phrases. */
  lemma ScanAndMissingHas(low: string)
    requires low == "full table scan and missing index"
    ensures Contains(low, "full table scan") && Contains(low, "missing index")
  {
    var head, tail := "full table scan and ", "missing index";
    assert low == head + tail;
    ContainsAt(low, "full table scan", 0);
    ContainsAt(tail, "missing index", 0);
    ContainsAppend(head, tail, "missing index");
  }

  /** The letters o, q, w and the characters `*` and `'` are absent from
      "full table scan and missing index", so the phrases that need them do
      not occur. */
  lemma ScanAndMissingLacks(low: string)
    requires low == "full table scan and missing index"
    ensures !Contains(low, "no index") && !Contains(low, "repeated query")
    ensures !Contains(low, "duplicate query") && !Contains(low, "select *")
    ensures !Contains(low, "like '%") && !Contains(low, "leading wildcard")
  {
    ScanAndMissingWords(low);
    NotInWords("full", "table", "scan", "and", "missing", "index", 'o');
    NotInWords("full", "table", "scan", "and", "missing", "index", 'q');
    NotInWords("full", "table", "scan", "and", "missing", "index", 'w');
    NotInWords("full", "table", "scan", "and", "missing", "index", '*');
    NotInWords("full", "table", "scan", "and", "missing", "index", '\'');
    NotContainsMissingChar(low, "no index", 'o');
    NotContainsMissingChar(low, "repeated query", 'q');
    NotContainsMissingChar(low, "duplicate query", 'q');
    NotContainsMissingChar(low, "select *", '*');
    NotContainsMissingChar(low, "like '%", '\'');
    NotContainsMissingChar(low, "leading wildcard", 'w');
  }

  /** "inefficient", all of whose letters "full table scan and missing
      index" has, does not occur in it: the phrase has no space and every
      word is shorter than it. */
  lemma ScanAndMissingNotInefficient(low: string)
    requires low == "full table scan and missing index"
    ensures !Contains(low, "inefficient")
  {
    ScanAndMissingWords(low);
    NotInShortWords("full", "table", "scan", "and", "missing", "index", "inefficient");
  }

  /** "Full table scan and missing index", in any casing, scores
      40 + 30 = 70. */
  lemma ScanAndMissingIndexScore(issueText: string)
    requires Lower(issueText) == "full table scan and missing index"
    ensures RiskScore(issueText) == 70
  {
    var low := Lower(issueText);
    ScanAndMissingHas(low);
    ScanAndMissingLacks(low);
    ScanAndMissingNotInefficient(low);
  }
}
