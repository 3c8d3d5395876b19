/** `generate_sql_recommendations`: turns the suggestion text of a reply into
    a list of SQL advice, at most one item per line. A line that asks for an
    index (and names what it goes "on") is kept as written, trimmed; lines
    about `SELECT *`, leading `LIKE` wildcards or caching are replaced by a
    fixed piece of advice. The first rule that matches decides the line. */
module SqlAdvice {
  import opened Wrappers
  import opened Text

  const AvoidSelectStar := "Avoid SELECT *; select only needed columns."
  const AvoidLeadingWildcard := "Avoid leading wildcard in LIKE; consider FULLTEXT or RIGHT()."
  const ConsiderCaching := "Consider query result caching (e.g., Redis, Memcached)."

  /** The lower-cased line asks for an index. */
  predicate AsksForIndex(low: string) {
    Contains(low, "create index") || Contains(low, "add index")
  }

  /** The lower-cased line mentions a leading wildcard. */
  predicate MentionsWildcard(low: string) {
    Contains(low, "like '%") || Contains(low, "leading wildcard")
  }

  /** What one raw line of the suggestion contributes. */
  function Recommend(raw: string): Option<string> {
    var line := Strip(raw);
    var low := Lower(line);
    if AsksForIndex(low) then
      if Contains(low, "on") then Some(line) else None
    else if Contains(low, "select *") then Some(AvoidSelectStar)
    else if MentionsWildcard(low) then Some(AvoidLeadingWildcard)
    else if Contains(low, "cache") then Some(ConsiderCaching)
    else None
  }

  /** An optional item as a list of zero or one items. */
  function Emitted<U>(item: Option<U>): seq<U> {
    match item
    case Some(r) => [r]
    case None => []
  }

  /** What `f` yields for each element, in order. */
  function Collect<T, U>(xs: seq<T>, f: T -> Option<U>): seq<U> {
    if xs == [] then [] else Emitted(f(xs[0])) + Collect(xs[1..], f)
  }

  /** The contribution of each line, in line order. */
  function Recommendations(lines: seq<string>): seq<string> {
    Collect(lines, Recommend)
  }

  lemma {:induction false} CollectAppend<T, U>(a: seq<T>, b: seq<T>, f: T -> Option<U>)
    ensures Collect(a + b, f) == Collect(a, f) + Collect(b, f)
  {
    if a == [] {
      assert a + b == b;
    } else {
      assert (a + b)[1..] == a[1..] + b;
      CollectAppend(a[1..], b, f);
    }
  }

  /** Lines are decided one at a time: the advice for two pieces of text
      is the advice for the first followed by the advice for the second. */
  lemma RecommendationsAppend(a: seq<string>, b: seq<string>)
    ensures Recommendations(a + b) == Recommendations(a) + Recommendations(b)
  {
    CollectAppend(a, b, Recommend);
  }

  lemma CollectSnoc<T, U>(xs: seq<T>, f: T -> Option<U>, i: nat)
    requires i < |xs|
    ensures Collect(xs[..i + 1], f) == Collect(xs[..i], f) + Emitted(f(xs[i]))
  {
    assert xs[..i + 1] == xs[..i] + [xs[i]];
    assert [xs[i]][1..] == [];
    CollectAppend(xs[..i], [xs[i]], f);
  }

  /** Reading one more line adds what that line yields. */
  lemma RecommendationsSnoc(lines: seq<string>, i: nat)
    requires i < |lines|
    ensures Recommendations(lines[..i + 1]) == Recommendations(lines[..i]) + Emitted(Recommend(lines[i]))
  {
    CollectSnoc(lines, Recommend, i);
  }

  /** `generate_sql_recommendations(suggestion_text)`: the loop appends to the
      list as each line is read. */
  method GenerateSqlRecommendations(suggestionText: string) returns (recs: seq<string>)
    ensures recs == Recommendations(SplitLines(suggestionText))
  {
    var lines := SplitLines(suggestionText);
    recs := [];
    var i := 0;
    while i < |lines|
      invariant 0 <= i <= |lines|
      invariant recs == Recommendations(lines[..i])
    {
      RecommendationsSnoc(lines, i);
      var line := Strip(lines[i]);
      var low := Lower(line);
      if Contains(low, "create index") || Contains(low, "add index") {
        if Contains(low, "on") {
          recs := recs + [line];
        }
      } else if Contains(low, "select *") {
        recs := recs + [AvoidSelectStar];
      } else if Contains(low, "like '%") || Contains(low, "leading wildcard") {
        recs := recs + [AvoidLeadingWildcard];
      } else if Contains(low, "cache") {
        recs := recs + [ConsiderCaching];
      }
      i := i + 1;
    }
    assert lines[..i] == lines;
  }

  lemma {:induction false} CollectAtMostOne<T, U>(xs: seq<T>, f: T -> Option<U>)
    ensures |Collect(xs, f)| <= |xs|
  {
    if xs != [] {
      CollectAtMostOne(xs[1..], f);
    }
  }

  /** No line yields more than one item. */
  lemma RecommendationsAtMostOnePerLine(lines: seq<string>)
    ensures |Recommendations(lines)| <= |lines|
  {
    CollectAtMostOne(lines, Recommend);
  }

  /** The positions below `n` whose element `f` maps to `Some(r)`. */
  ghost function Where<T, U>(xs: seq<T>, f: T -> Option<U>, r: U, n: nat): set<nat>
    requires n <= |xs|
  {
    set j: nat | j < n && f(xs[j]) == Some(r)
  }

  /** No position lies below 0. */
  lemma WhereNone<T, U>(xs: seq<T>, f: T -> Option<U>, r: U)
    ensures |Where(xs, f, r, 0)| == 0
  {
    assert Where(xs, f, r, 0) == {};
  }

  /** Looking at one more element adds its position when `f` maps it to
      `Some(r)`. */
  lemma WhereStep<T, U>(xs: seq<T>, f: T -> Option<U>, r: U, n: nat)
    requires 0 < n <= |xs|
    ensures |Where(xs, f, r, n)| == |Where(xs, f, r, n - 1)| + if f(xs[n - 1]) == Some(r) then 1 else 0
  {
    if f(xs[n - 1]) == Some(r) {
      assert Where(xs, f, r, n) == Where(xs, f, r, n - 1) + {n - 1};
    } else {
      assert Where(xs, f, r, n) == Where(xs, f, r, n - 1);
    }
  }

  /** Among the items collected from the first `n` elements, `r` occurs once
      per element that yields it. */
  lemma {:induction false} CollectCount<T, U>(xs: seq<T>, f: T -> Option<U>, r: U, n: nat)
    requires n <= |xs|
    ensures multiset(Collect(xs[..n], f))[r] == |Where(xs, f, r, n)|
  {
    if n == 0 {
      assert xs[..0] == [];
      WhereNone(xs, f, r);
    } else {
      CollectCount(xs, f, r, n - 1);
      CollectSnoc(xs, f, n - 1);
      WhereStep(xs, f, r, n);
      EmittedCount(Collect(xs[..n], f), Collect(xs[..n - 1], f), f(xs[n - 1]), r);
    }
  }

  /** Appending an optional item adds one occurrence of it, if present. */
  lemma EmittedCount<U>(whole: seq<U>, prev: seq<U>, item: Option<U>, r: U)
    requires whole == prev + Emitted(item)
    ensures multiset(whole)[r] == multiset(prev)[r] + if item == Some(r) then 1 else 0
  {
  }

  /** An item is collected exactly when some element yields it. */
  lemma {:induction false} CollectFrom<T, U>(xs: seq<T>, f: T -> Option<U>, r: U)
    ensures r in Collect(xs, f) <==> exists j :: 0 <= j < |xs| && f(xs[j]) == Some(r)
  {
    if xs != [] {
      CollectFrom(xs[1..], f, r);
      if exists j :: 0 <= j < |xs| && f(xs[j]) == Some(r) {
        var j :| 0 <= j < |xs| && f(xs[j]) == Some(r);
        if j > 0 {
          assert xs[1..][j - 1] == xs[j];
        }
      }
      if exists j :: 0 <= j < |xs[1..]| && f(xs[1..][j]) == Some(r) {
        var j :| 0 <= j < |xs[1..]| && f(xs[1..][j]) == Some(r);
        assert xs[j + 1] == xs[1..][j];
      }
    }
  }

  /** An item is in the list exactly when some line yields it, and it occurs
      as often as there are lines that yield it: duplicates are kept. */
  lemma RecommendationsFromLines(lines: seq<string>, r: string)
    ensures r in Recommendations(lines) <==> exists j :: 0 <= j < |lines| && Recommend(lines[j]) == Some(r)
    ensures multiset(Recommendations(lines))[r] == |Where(lines, Recommend, r, |lines|)|
  {
    CollectFrom(lines, Recommend, r);
    CollectCount(lines, Recommend, r, |lines|);
    assert lines[..|lines|] == lines;
  }

  /** What a line can yield: its own trimmed text when it asks for an index
      on something, or one of the three fixed pieces of advice. */
  lemma RecommendShape(raw: string, r: string)
    requires Recommend(raw) == Some(r)
    ensures || (r == Strip(raw) && AsksForIndex(Lower(r)) && Contains(Lower(r), "on"))
            || r == AvoidSelectStar || r == AvoidLeadingWildcard || r == ConsiderCaching
  {
    var line := Strip(raw);
    if AsksForIndex(Lower(line)) {
      assert r == line;
    }
  }

  /** A line that asks for an index yields its trimmed self when it mentions
      "on" and nothing at all otherwise: the later rules never see it. */
  lemma IndexLineDecides(raw: string)
    requires AsksForIndex(Lower(Strip(raw)))
    ensures Contains(Lower(Strip(raw)), "on") ==> Recommend(raw) == Some(Strip(raw))
    ensures !Contains(Lower(Strip(raw)), "on") ==> Recommend(raw) == None
  {
  }

  /** The rules are tried in order: `SELECT *` wins over a wildcard or cache
      mention on the same line. */
  lemma SelectStarFirst(raw: string)
    requires !AsksForIndex(Lower(Strip(raw))) && Contains(Lower(Strip(raw)), "select *")
    ensures Recommend(raw) == Some(AvoidSelectStar)
  {
  }

  /** A line that matches no rule yields nothing. */
  lemma NoKeywordNoAdvice(raw: string)
    requires !AsksForIndex(Lower(Strip(raw))) && !Contains(Lower(Strip(raw)), "select *")
    requires !MentionsWildcard(Lower(Strip(raw))) && !Contains(Lower(Strip(raw)), "cache")
    ensures Recommend(raw) == None
  {
  }

  lemma {:induction false} CollectNone<T, U>(xs: seq<T>, f: T -> Option<U>)
    requires forall j :: 0 <= j < |xs| ==> f(xs[j]).None?
    ensures Collect(xs, f) == []
  {
    if xs != [] {
      assert f(xs[0]).None?;
      CollectNone(xs[1..], f);
    }
  }

  /** Text in which no line matches a rule yields an empty list. */
  lemma NoMatchesNoAdvice(lines: seq<string>)
    requires forall j :: 0 <= j < |lines| ==> Recommend(lines[j]).None?
    ensures Recommendations(lines) == []
  {
    CollectNone(lines, Recommend);
  }

  /** A blank line yields nothing. */
  lemma BlankLineNoAdvice(raw: string)
    requires forall i :: 0 <= i < |raw| ==> IsSpace(raw[i])
    ensures Recommend(raw) == None
  {
    StripShape(raw);
    NotContainsShort([], "create index");
    NotContainsShort([], "add index");
    NotContainsShort([], "select *");
    NotContainsShort([], "like '%");
    NotContainsShort([], "leading wildcard");
    NotContainsShort([], "cache");
  }

  /** "select * from t", in any casing, gets the `SELECT *` advice. */
  lemma SelectStarLine(raw: string)
    requires Lower(Strip(raw)) == "select * from t"
    ensures Recommend(raw) == Some(AvoidSelectStar)
  {
    var low := Lower(Strip(raw));
    ContainsAt(low, "select *", 0);
    NoIndexWithoutX(low);
  }

  /** Both index phrases need an `x`. */
  lemma NoIndexWithoutX(low: string)
    requires 'x' !in low
    ensures !AsksForIndex(low)
  {
    NotContainsMissingChar(low, "create index", 'x');
    NotContainsMissingChar(low, "add index", 'x');
  }

  /** "CREATE INDEX idx ON t(c)", in any casing, is kept as written. */
  lemma CreateIndexLine(raw: string)
    requires Lower(Strip(raw)) == "create index idx on t(c)"
    ensures Recommend(raw) == Some(Strip(raw))
  {
    var low := Lower(Strip(raw));
    ContainsAt(low, "create index", 0);
    ContainsAt(low, "on", 17);
  }

  /** "Add index" without a target yields nothing, not even a later rule's
      advice. */
  lemma AddIndexWithoutTarget(raw: string)
    requires Lower(Strip(raw)) == "add index"
    ensures Recommend(raw) == None
  {
    var low := Lower(Strip(raw));
    ContainsAt(low, "add index", 0);
    NotContainsMissingChar(low, "on", 'o');
  }

  /** The target test looks for the letters "on" anywhere, so a word like
      "json" passes it. */
  lemma OnInsideWord(raw: string)
    requires Lower(Strip(raw)) == "add index for json"
    ensures Recommend(raw) == Some(Strip(raw))
  {
    var low := Lower(Strip(raw));
    ContainsAt(low, "add index", 0);
    ContainsAt(low, "on", 16);
  }
}
