/** The optional value used wherever the source tests for "no such thing yet"
    (no section opened, no text field on a reply, no recommendation for a line). */
module Wrappers {
  datatype Option<+T> = None | Some(value: T)
}

/** The string primitives the log chunker and the reply processing rely on:
    Python's `str.splitlines`, `str.strip`, `str.lower`, `str.startswith`,
    the `in` substring test and `"\n".join`, with line breaks restricted to
    '\n' and case folding and whitespace restricted to ASCII. */
module Text {

  /** Python's `str.isspace` on ASCII characters: the space, \t \n \v \f \r
      (9..13) and the four information separators 0x1C..0x1F. */
  predicate IsSpace(c: char) {
    c == ' ' || 9 <= c as int <= 13 || 28 <= c as int <= 31
  }

  /** `s.lstrip()`: the suffix of `s` left after dropping leading whitespace. */
  function TrimStart(s: string): (r: string)
    ensures |r| <= |s|
    ensures r == [] || !IsSpace(r[0])
    ensures forall i :: 0 <= i < |s| - |r| ==> IsSpace(s[i])
  {
    if s != [] && IsSpace(s[0]) then TrimStart(s[1..]) else s
  }

  /** `s.rstrip()`: the prefix of `s` left after dropping trailing whitespace. */
  function TrimEnd(s: string): (r: string)
    ensures |r| <= |s|
    ensures r == [] || !IsSpace(r[|r| - 1])
    ensures forall i :: |r| <= i < |s| ==> IsSpace(s[i])
  {
    if s != [] && IsSpace(s[|s| - 1]) then TrimEnd(s[..|s| - 1]) else s
  }

  /** What `lstrip` keeps is a suffix of its input. */
  lemma {:induction false} TrimStartSuffix(s: string)
    ensures TrimStart(s) == s[|s| - |TrimStart(s)|..]
  {
    if s != [] && IsSpace(s[0]) {
      TrimStartSuffix(s[1..]);
    }
  }

  /** What `rstrip` keeps is a prefix of its input. */
  lemma {:induction false} TrimEndPrefix(s: string)
    ensures TrimEnd(s) == s[..|TrimEnd(s)|]
  {
    if s != [] && IsSpace(s[|s| - 1]) {
      TrimEndPrefix(s[..|s| - 1]);
    }
  }

  /** `s.strip()`. */
  function Strip(s: string): string {
    TrimEnd(TrimStart(s))
  }

  /** The stripped text is empty exactly for all-whitespace input; otherwise
      it begins and ends with a non-whitespace character. */
  lemma StripShape(s: string)
    ensures |Strip(s)| <= |s|
    ensures Strip(s) == [] <==> forall i :: 0 <= i < |s| ==> IsSpace(s[i])
    ensures Strip(s) != [] ==> !IsSpace(Strip(s)[0]) && !IsSpace(Strip(s)[|Strip(s)| - 1])
  {
    var t := TrimStart(s);
    TrimStartSuffix(s);
    TrimEndPrefix(t);
    assert t == [] ==> forall i :: 0 <= i < |s| ==> IsSpace(s[i]);
  }

  /** The first non-whitespace character of a line is the first character of
      its stripped form. */
  lemma StripFirst(s: string, k: nat)
    requires k < |s| && !IsSpace(s[k])
    requires forall j :: 0 <= j < k ==> IsSpace(s[j])
    ensures Strip(s) != [] && Strip(s)[0] == s[k]
  {
    var t := TrimStart(s);
    TrimStartSuffix(s);
    TrimEndPrefix(t);
    assert t != [] && |s| - |t| <= k;
  }

  predicate IsUpper(c: char) {
    'A' <= c <= 'Z'
  }

  /** `str.lower` on one ASCII character. */
  function LowerChar(c: char): (d: char)
    ensures !IsUpper(d)
    ensures IsUpper(c) ==> d as int == c as int + 32
    ensures !IsUpper(c) ==> d == c
  {
    if IsUpper(c) then (c as int + 32) as char else c
  }

  /** `s.lower()`: the same length as `s`. */
  function Lower(s: string): (r: string)
    ensures |r| == |s|
  {
    if s == [] then [] else [LowerChar(s[0])] + Lower(s[1..])
  }

  /** Text that neither starts nor ends with whitespace is its own strip. */
  lemma StripTrimmed(s: string)
    requires s != [] && !IsSpace(s[0]) && !IsSpace(s[|s| - 1])
    ensures Strip(s) == s
  {
  }

  /** Stripping twice is stripping once. */
  lemma StripIdempotent(s: string)
    ensures Strip(Strip(s)) == Strip(s)
  {
    StripShape(s);
    if Strip(s) != [] {
      StripTrimmed(Strip(s));
    }
  }

  /** The middle piece of a concatenation sits between the other two. */
  lemma MiddleSlice(a: string, m: string, b: string, c: string)
    ensures (a + m + b + c)[|a|..|a| + |m|] == m
  {
    assert a + m + b + c == a + m + (b + c);
  }

  /** Every character is lowered on its own. */
  lemma {:induction false} LowerAt(s: string)
    ensures forall i :: 0 <= i < |s| ==> Lower(s)[i] == LowerChar(s[i])
  {
    if s != [] {
      LowerAt(s[1..]);
    }
  }

  lemma LowerIdempotent(s: string)
    ensures Lower(Lower(s)) == Lower(s)
  {
    LowerAt(s);
    LowerAt(Lower(s));
  }

  lemma LowerAppend(a: string, b: string)
    ensures Lower(a + b) == Lower(a) + Lower(b)
  {
    LowerAt(a);
    LowerAt(b);
    LowerAt(a + b);
  }

  /** `s.startswith(p)`. */
  predicate StartsWith(s: string, p: string) {
    |p| <= |s| && s[..|p|] == p
  }

  /** `sub in s`. */
  predicate Contains(s: string, sub: string) {
    StartsWith(s, sub) || (s != [] && Contains(s[1..], sub))
  }

  /** An occurrence at a known position is an occurrence. */
  lemma {:induction false} ContainsAt(s: string, sub: string, i: nat)
    requires i + |sub| <= |s| && s[i..i + |sub|] == sub
    ensures Contains(s, sub)
  {
    if i > 0 {
      assert s[1..][i - 1..i - 1 + |sub|] == s[i..i + |sub|];
      ContainsAt(s[1..], sub, i - 1);
    }
  }

  /** Every occurrence sits at some position. */
  lemma {:induction false} ContainsSomewhere(s: string, sub: string) returns (i: nat)
    requires Contains(s, sub)
    ensures i + |sub| <= |s| && s[i..i + |sub|] == sub
  {
    if StartsWith(s, sub) {
      i := 0;
    } else {
      var j := ContainsSomewhere(s[1..], sub);
      i := j + 1;
      assert s[1..][j..j + |sub|] == s[i..i + |sub|];
    }
  }

  /** Text added before or after keeps every occurrence. */
  lemma ContainsAppend(a: string, b: string, sub: string)
    ensures Contains(a, sub) ==> Contains(a + b, sub)
    ensures Contains(b, sub) ==> Contains(a + b, sub)
  {
    if Contains(a, sub) {
      var i := ContainsSomewhere(a, sub);
      assert (a + b)[i..i + |sub|] == a[i..i + |sub|];
      ContainsAt(a + b, sub, i);
    }
    if Contains(b, sub) {
      var i := ContainsSomewhere(b, sub);
      assert (a + b)[|a| + i..|a| + i + |sub|] == b[i..i + |sub|];
      ContainsAt(a + b, sub, |a| + i);
    }
  }

  /** A string cannot contain a phrase that uses a character it lacks. */
  lemma NotContainsMissingChar(s: string, sub: string, c: char)
    requires c in sub && c !in s
    ensures !Contains(s, sub)
  {
    if Contains(s, sub) {
      var i := ContainsSomewhere(s, sub);
    }
  }

  /** A phrase free of the character `x` found in `a + [x] + b` lies in `a` or in `b`. */
  lemma NotContainsAcross(a: string, x: char, b: string, sub: string)
    requires x !in sub && !Contains(a, sub) && !Contains(b, sub)
    ensures !Contains(a + [x] + b, sub)
  {
    if Contains(a + [x] + b, sub) {
      var i := ContainsSomewhere(a + [x] + b, sub);
      if i + |sub| <= |a| {
        OccurrenceInLeft(a, x, b, sub, i);
      } else if i > |a| {
        OccurrenceInRight(a, x, b, sub, i);
      } else {
        OccurrenceOverSeparator(a, x, b, sub, i);
      }
    }
  }

  /** An occurrence in `a + [x] + b` that ends within `a` is one in `a`. */
  lemma OccurrenceInLeft(a: string, x: char, b: string, sub: string, i: nat)
    requires i + |sub| <= |a| && (a + [x] + b)[i..i + |sub|] == sub
    ensures Contains(a, sub)
  {
    assert a[i..i + |sub|] == (a + [x] + b)[i..i + |sub|];
    ContainsAt(a, sub, i);
  }

  /** An occurrence in `a + [x] + b` that starts after `x` is one in `b`. */
  lemma OccurrenceInRight(a: string, x: char, b: string, sub: string, i: nat)
    requires |a| < i && i + |sub| <= |a| + 1 + |b| && (a + [x] + b)[i..i + |sub|] == sub
    ensures Contains(b, sub)
  {
    var s, j := a + [x] + b, i - |a| - 1;
    assert s[|a| + 1..] == b;
    SliceOfSuffix(s, |a| + 1, j, |sub|);
    ContainsAt(b, sub, j);
  }

  lemma SliceOfSuffix<T>(s: seq<T>, k: nat, j: nat, m: nat)
    requires k + j + m <= |s|
    ensures s[k..][j..j + m] == s[k + j..k + j + m]
  {
  }

  /** An occurrence in `a + [x] + b` that straddles the end of `a` holds `x`. */
  lemma OccurrenceOverSeparator(a: string, x: char, b: string, sub: string, i: nat)
    requires i <= |a| < i + |sub| <= |a| + 1 + |b| && (a + [x] + b)[i..i + |sub|] == sub
    ensures x in sub
  {
    var s := a + [x] + b;
    assert s[|a|] == x;
    assert sub[|a| - i] == s[|a|];
  }

  lemma NotContainsShort(s: string, sub: string)
    requires |s| < |sub|
    ensures !Contains(s, sub)
  {
    if Contains(s, sub) {
      var i := ContainsSomewhere(s, sub);
    }
  }

  /** `"\n".join(lines)`. */
  function Join(lines: seq<string>): (s: string)
  {
    if |lines| == 0 then ""
    else if |lines| == 1 then lines[0]
    else lines[0] + "\n" + Join(lines[1..])
  }

  /** The pieces of `s` between '\n' characters (Python's `s.split("\n")`):
      there is always at least one piece and no piece holds a '\n'. */
  function Split(s: string): (pieces: seq<string>)
    ensures |pieces| >= 1
    ensures forall k :: 0 <= k < |pieces| ==> '\n' !in pieces[k]
  {
    if s == [] then [""]
    else
      var rest := Split(s[1..]);
      if s[0] == '\n' then [""] + rest
      else [[s[0]] + rest[0]] + rest[1..]
  }

  /** `s.splitlines()` with '\n' as the only line break: the empty text has
      no lines and a final '\n' ends the last line instead of opening one. */
  function SplitLines(s: string): (lines: seq<string>)
    ensures forall k :: 0 <= k < |lines| ==> '\n' !in lines[k]
  {
    if s == [] then []
    else if s[|s| - 1] == '\n' then Split(s[..|s| - 1])
    else Split(s)
  }

  lemma {:induction false} SplitPrefix(x: string, t: string)
    requires '\n' !in x
    ensures Split(x + t) == [x + Split(t)[0]] + Split(t)[1..]
  {
    if x == [] {
      assert x + t == t && x + Split(t)[0] == Split(t)[0];
      ConsView(Split(t));
    } else {
      var c, y := x[0], x[1..];
      assert c in x;
      ConsView(x);
      assert '\n' !in y by {
        assert forall ch :: ch in y ==> ch in x;
      }
      ConsAppend(c, y, t);
      SplitCons(c, y + t);
      SplitPrefix(y, t);
      HeadTail(y + Split(t)[0], Split(t)[1..]);
      ConsAppend(c, y, Split(t)[0]);
    }
  }

  /** A character other than '\n' joins the first piece of the rest. */
  lemma SplitCons(c: char, u: string)
    requires c != '\n'
    ensures Split([c] + u) == [[c] + Split(u)[0]] + Split(u)[1..]
  {
    HeadTail(c, u);
  }

  /** The head and the tail of `[a] + rest`. */
  lemma HeadTail<T>(a: T, rest: seq<T>)
    ensures ([a] + rest)[0] == a && ([a] + rest)[1..] == rest
  {
  }

  /** A non-empty sequence is its head followed by its tail. */
  lemma ConsView<T>(xs: seq<T>)
    requires xs != []
    ensures xs == [xs[0]] + xs[1..]
  {
  }

  /** `x` split as its head and tail, appended to `t`. */
  lemma ConsAppend<T>(c: T, y: seq<T>, t: seq<T>)
    ensures [c] + y + t == [c] + (y + t)
    ensures ([c] + y)[0] == c && ([c] + y)[1..] == y
  {
  }


  /** Splitting undoes joining: lines free of '\n' come back one for one. */
  lemma {:induction false} SplitJoin(lines: seq<string>)
    requires |lines| >= 1
    requires forall k :: 0 <= k < |lines| ==> '\n' !in lines[k]
    ensures Split(Join(lines)) == lines
  {
    if |lines| == 1 {
      SplitPrefix(lines[0], "");
      assert lines[0] + "" == lines[0];
    } else {
      var rest := Join(lines[1..]);
      SplitJoin(lines[1..]);
      assert Join(lines) == lines[0] + ("\n" + rest);
      SplitPrefix(lines[0], "\n" + rest);
      assert ("\n" + rest)[1..] == rest;
      assert Split("\n" + rest) == [""] + Split(rest);
      assert lines[0] + "" == lines[0];
      assert lines == [lines[0]] + lines[1..];
    }
  }

  /** Joining undoes splitting: the split loses no character of the text. */
  lemma {:induction false} JoinSplit(s: string)
    ensures Join(Split(s)) == s
  {
    if s != [] {
      var rest := Split(s[1..]);
      JoinSplit(s[1..]);
      if s[0] == '\n' {
        assert Split(s) == [""] + rest;
        assert ([""] + rest)[1..] == rest;
      } else {
        var head := [s[0]] + rest[0];
        assert Split(s) == [head] + rest[1..];
        if |rest| == 1 {
          assert Join(Split(s)) == head;
        } else {
          assert ([head] + rest[1..])[1..] == rest[1..];
          assert Join(Split(s)) == head + "\n" + Join(rest[1..]);
        }
      }
      assert s == [s[0]] + s[1..];
    }
  }

  /** The joined text ends with the last character of the last line. */
  lemma {:induction false} JoinEnds(lines: seq<string>)
    requires |lines| >= 1 && lines[|lines| - 1] != []
    ensures Join(lines) != [] && Join(lines)[|Join(lines)| - 1] == lines[|lines| - 1][|lines[|lines| - 1]| - 1]
  {
    if |lines| > 1 {
      JoinEnds(lines[1..]);
    }
  }

  /** `splitlines` undoes the chunker's join of non-empty lines free of '\n'. */
  lemma SplitLinesJoin(lines: seq<string>)
    requires |lines| >= 1
    requires forall k :: 0 <= k < |lines| ==> '\n' !in lines[k]
    requires lines[|lines| - 1] != []
    ensures SplitLines(Join(lines)) == lines
  {
    JoinEnds(lines);
    var last := lines[|lines| - 1];
    assert last[|last| - 1] in last;
    SplitJoin(lines);
  }
}
