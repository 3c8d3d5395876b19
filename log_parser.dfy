/** `parse_log_file`: the slow-query log is split into lines, blank lines and
    `#` comment lines are dropped, and the remaining lines are cut into
    consecutive windows of at most `max_chunk_lines` lines, each window joined
    with '\n' into one chunk. */
module LogParser {
  import opened Text

  /** A line survives the filter when its trimmed form is non-empty and does
      not start with `#`. */
  predicate IsKept(line: string) {
    var t := Strip(line);
    t != [] && t[0] != '#'
  }

  /** `k` is the position of the first non-whitespace character of `line`. */
  predicate FirstVisible(line: string, k: nat)
    requires k < |line|
  {
    !IsSpace(line[k]) && forall j :: 0 <= j < k ==> IsSpace(line[j])
  }

  /** The filtering list comprehension: the surviving lines, as written
      (untrimmed), in their original order. */
  function KeptLines(lines: seq<string>): (kept: seq<string>)
  {
    if lines == [] then []
    else (if IsKept(lines[0]) then [lines[0]] else []) + KeptLines(lines[1..])
  }

  /** The consecutive windows the `range(0, len, max_chunk_lines)` loop cuts,
      each `lines[i:i + size]` (the last one clamped at the end). */
  function Windows(lines: seq<string>, size: nat): (ws: seq<seq<string>>)
    requires size > 0
    decreases |lines|
  {
    if lines == [] then []
    else
      var n := if |lines| < size then |lines| else size;
      [lines[..n]] + Windows(lines[n..], size)
  }

  /** Each window joined with '\n'. */
  function JoinEach(ws: seq<seq<string>>): (chunks: seq<string>)
    ensures |chunks| == |ws|
    ensures forall k :: 0 <= k < |ws| ==> chunks[k] == Join(ws[k])
  {
    if ws == [] then [] else [Join(ws[0])] + JoinEach(ws[1..])
  }

  /** All windows laid end to end. */
  function Concat(ws: seq<seq<string>>): seq<string> {
    if ws == [] then [] else ws[0] + Concat(ws[1..])
  }

  /** The lines of every chunk, re-split and laid end to end. */
  function LinesOf(chunks: seq<string>): seq<string> {
    if chunks == [] then [] else SplitLines(chunks[0]) + LinesOf(chunks[1..])
  }

  /** What `parse_log_file(log_text, max_chunk_lines)` returns for a positive
      window size. */
  function LogChunks(logText: string, maxChunkLines: nat): seq<string>
    requires maxChunkLines > 0
  {
    JoinEach(Windows(KeptLines(SplitLines(logText)), maxChunkLines))
  }

  /** The window size `parse_log_file` uses when the caller gives none. */
  const DefaultChunkLines: int := 30

  /** `parse_log_file`. A window size of 0 makes `range` raise, which is the
      one thing the caller must avoid; a negative size gives an empty range
      and so no chunk at all. */
  method ParseLogFile(logText: string, maxChunkLines: int := DefaultChunkLines) returns (chunks: seq<string>)
    requires maxChunkLines != 0
    ensures maxChunkLines < 0 ==> chunks == []
    ensures maxChunkLines > 0 ==> chunks == LogChunks(logText, maxChunkLines)
  {
    var lines := SplitLines(logText);
    var cleanLines := KeptLines(lines);
    if maxChunkLines < 0 {
      return [];
    }
    chunks := GroupLines(cleanLines, maxChunkLines);
  }

  /** The grouping loop of `parse_log_file`: for each `i` in
      `range(0, len(clean_lines), size)` it appends
      `"\n".join(clean_lines[i:i + size])`. */
  method GroupLines(cleanLines: seq<string>, size: nat) returns (chunks: seq<string>)
    requires size > 0
    ensures chunks == JoinEach(Windows(cleanLines, size))
  {
    chunks := [];
    ChunksFromStart(cleanLines, size);
    var i := 0;
    while i < |cleanLines|
      invariant 0 <= i
      invariant chunks + ChunksFrom(cleanLines, i, size) == JoinEach(Windows(cleanLines, size))
      decreases |cleanLines| - i
    {
      var end := if i + size < |cleanLines| then i + size else |cleanLines|;
      var chunk := Join(cleanLines[i..end]);
      ChunksStep(chunks, cleanLines, i, end, size);
      chunks := chunks + [chunk];
      i := i + size;
    }
  }

  /** The chunks the loop has still to emit once it stands at line `i`. */
  function ChunksFrom(lines: seq<string>, i: nat, size: nat): seq<string>
    requires size > 0
  {
    if i < |lines| then JoinEach(Windows(lines[i..], size)) else []
  }

  /** Before the loop, every window is still to be emitted. */
  lemma ChunksFromStart(lines: seq<string>, size: nat)
    requires size > 0
    ensures [] + ChunksFrom(lines, 0, size) == JoinEach(Windows(lines, size))
  {
    assert lines[0..] == lines;
  }

  /** One turn of the windowing loop: the window at `i` is the next chunk. */
  lemma ChunksStep(done: seq<string>, lines: seq<string>, i: nat, end: nat, size: nat)
    requires size > 0 && i < |lines|
    requires end == if i + size < |lines| then i + size else |lines|
    ensures done + ChunksFrom(lines, i, size)
      == (done + [Join(lines[i..end])]) + ChunksFrom(lines, i + size, size)
  {
    var rest := lines[i..];
    assert rest[..end - i] == lines[i..end];
    assert rest[end - i..] == lines[end..];
    var ws := Windows(rest, size);
    assert ws == [lines[i..end]] + Windows(lines[end..], size);
    assert ws[1..] == Windows(lines[end..], size);
    assert ChunksFrom(lines, i, size) == [Join(lines[i..end])] + ChunksFrom(lines, i + size, size);
  }

  /** A line is kept exactly when it has a first visible character and that
      character is not `#`. */
  lemma KeptIffFirstVisibleNotHash(line: string)
    ensures IsKept(line) <==> exists k :: 0 <= k < |line| && FirstVisible(line, k) && line[k] != '#'
  {
    if IsKept(line) {
      var t := TrimStart(line);
      var k := |line| - |t|;
      assert t != [];
      TrimStartSuffix(line);
      assert t[0] == line[k];
      assert FirstVisible(line, k);
      StripFirst(line, k);
    }
    forall k | 0 <= k < |line| && FirstVisible(line, k) && line[k] != '#'
      ensures IsKept(line)
    {
      StripFirst(line, k);
    }
  }

  /** The filter distributes over concatenation: nothing is reordered and
      every line is decided on its own. */
  lemma {:induction false} KeptLinesAppend(a: seq<string>, b: seq<string>)
    ensures KeptLines(a + b) == KeptLines(a) + KeptLines(b)
  {
    if a != [] {
      assert (a + b)[0] == a[0];
      assert (a + b)[1..] == a[1..] + b;
      KeptLinesAppend(a[1..], b);
    } else {
      assert a + b == b;
    }
  }

  /** The output holds only lines of the input that pass the filter, and no
      more of them than the input has. */
  lemma {:induction false} KeptLinesSound(lines: seq<string>)
    ensures |KeptLines(lines)| <= |lines|
    ensures forall k :: 0 <= k < |KeptLines(lines)| ==>
      IsKept(KeptLines(lines)[k]) && KeptLines(lines)[k] in lines
  {
    if lines != [] {
      KeptLinesSound(lines[1..]);
    }
  }

  /** Input without a line that passes the filter keeps nothing. */
  lemma {:induction false} KeptLinesNone(lines: seq<string>)
    requires forall k :: 0 <= k < |lines| ==> !IsKept(lines[k])
    ensures KeptLines(lines) == []
  {
    if lines != [] {
      KeptLinesNone(lines[1..]);
    }
  }

  /** Every line that passes the filter reaches the output. */
  lemma {:induction false} KeptLinesComplete(lines: seq<string>, k: nat)
    requires k < |lines| && IsKept(lines[k])
    ensures lines[k] in KeptLines(lines)
  {
    if k > 0 {
      KeptLinesComplete(lines[1..], k - 1);
    }
  }

  /** Laying the windows end to end gives back the lines: nothing lost,
      duplicated or reordered. */
  lemma {:induction false} WindowsConcat(lines: seq<string>, size: nat)
    requires size > 0
    ensures Concat(Windows(lines, size)) == lines
    decreases |lines|
  {
    if lines != [] {
      var n := if |lines| < size then |lines| else size;
      WindowsConcat(lines[n..], size);
      assert Windows(lines, size)[1..] == Windows(lines[n..], size);
      assert lines[..n] + lines[n..] == lines;
    }
  }

  /** Every window holds between 1 and `size` lines, and every window but the
      last holds exactly `size`. */
  lemma {:induction false} WindowsSizes(lines: seq<string>, size: nat)
    requires size > 0
    ensures forall k :: 0 <= k < |Windows(lines, size)| ==> 1 <= |Windows(lines, size)[k]| <= size
    ensures forall k :: 0 <= k < |Windows(lines, size)| - 1 ==> |Windows(lines, size)[k]| == size
    decreases |lines|
  {
    if lines != [] {
      var n := if |lines| < size then |lines| else size;
      WindowsSizes(lines[n..], size);
      var ws := Windows(lines, size);
      assert ws[1..] == Windows(lines[n..], size);
      assert n < size ==> Windows(lines[n..], size) == [];
      forall k | 1 <= k < |ws|
        ensures 1 <= |ws[k]| <= size && (k < |ws| - 1 ==> |ws[k]| == size)
      {
        assert ws[k] == ws[1..][k - 1];
      }
    }
  }

  /** The number of windows is `ceil(|lines| / size)`: the least count
      whose windows of `size` lines can hold all the lines. */
  lemma {:induction false} WindowsCount(lines: seq<string>, size: nat)
    requires size > 0
    ensures |lines| <= |Windows(lines, size)| * size
    ensures |Windows(lines, size)| == 0 || (|Windows(lines, size)| - 1) * size < |lines|
    decreases |lines|
  {
    if lines != [] {
      var n := if |lines| < size then |lines| else size;
      WindowsCount(lines[n..], size);
      var m := |Windows(lines[n..], size)|;
      assert |Windows(lines, size)| == m + 1;
      assert (m + 1) * size == m * size + size;
      if m > 0 {
        assert n == size;
        assert m * size == (m - 1) * size + size;
      }
    }
  }

  /** Each kept line has at least one character and no '\n'. */
  lemma KeptLinesShape(logText: string)
    ensures forall k :: 0 <= k < |KeptLines(SplitLines(logText))| ==>
      KeptLines(SplitLines(logText))[k] != [] && '\n' !in KeptLines(SplitLines(logText))[k]
  {
    var lines := SplitLines(logText);
    var kept := KeptLines(lines);
    KeptLinesSound(lines);
    forall k | 0 <= k < |kept|
      ensures kept[k] != [] && '\n' !in kept[k]
    {
      assert IsKept(kept[k]) && kept[k] in lines;
      assert |Strip(kept[k])| <= |kept[k]|;
      var j :| 0 <= j < |lines| && lines[j] == kept[k];
    }
  }

  /** Re-splitting the joined windows of non-empty, newline-free lines gives
      back those lines. */
  lemma {:induction false} LinesOfWindows(lines: seq<string>, size: nat)
    requires size > 0
    requires forall k :: 0 <= k < |lines| ==> lines[k] != [] && '\n' !in lines[k]
    ensures LinesOf(JoinEach(Windows(lines, size))) == lines
    decreases |lines|
  {
    if lines != [] {
      var n := if |lines| < size then |lines| else size;
      var w := lines[..n];
      var rest := lines[n..];
      LinesOfWindowsStep(lines, size, n);
      LinesOfWindows(rest, size);
      SplitLinesJoin(w);
      assert LinesOf(JoinEach(Windows(lines, size))) == w + rest;
      assert w + rest == lines;
    }
  }

  /** The first window's lines come first. */
  lemma LinesOfWindowsStep(lines: seq<string>, size: nat, n: nat)
    requires size > 0 && lines != []
    requires n == if |lines| < size then |lines| else size
    ensures LinesOf(JoinEach(Windows(lines, size)))
      == SplitLines(Join(lines[..n])) + LinesOf(JoinEach(Windows(lines[n..], size)))
  {
    var ws := Windows(lines, size);
    assert ws == [lines[..n]] + Windows(lines[n..], size);
    assert ws[1..] == Windows(lines[n..], size);
    var chunks := JoinEach(ws);
    assert chunks[0] == Join(lines[..n]);
    assert chunks[1..] == JoinEach(Windows(lines[n..], size));
  }

  /** The chunks, re-split into lines and laid end to end, are exactly the
      kept lines of the log in their original order. */
  lemma ChunksRoundTrip(logText: string, maxChunkLines: nat)
    requires maxChunkLines > 0
    ensures LinesOf(LogChunks(logText, maxChunkLines)) == KeptLines(SplitLines(logText))
  {
    KeptLinesShape(logText);
    LinesOfWindows(KeptLines(SplitLines(logText)), maxChunkLines);
  }

  /** Every chunk holds between 1 and `max_chunk_lines` lines, all but the
      last exactly `max_chunk_lines`, and there are `ceil(kept / max_chunk_lines)`
      chunks. */
  lemma ChunkSizes(logText: string, maxChunkLines: nat)
    requires maxChunkLines > 0
    ensures var chunks := LogChunks(logText, maxChunkLines);
      && |KeptLines(SplitLines(logText))| <= |chunks| * maxChunkLines
      && (|chunks| == 0 || (|chunks| - 1) * maxChunkLines < |KeptLines(SplitLines(logText))|)
      && (forall k :: 0 <= k < |chunks| ==> 1 <= |SplitLines(chunks[k])| <= maxChunkLines)
      && (forall k :: 0 <= k < |chunks| - 1 ==> |SplitLines(chunks[k])| == maxChunkLines)
  {
    var kept := KeptLines(SplitLines(logText));
    var ws := Windows(kept, maxChunkLines);
    KeptLinesShape(logText);
    WindowsSizes(kept, maxChunkLines);
    WindowsCount(kept, maxChunkLines);
    WindowsConcat(kept, maxChunkLines);
    forall k | 0 <= k < |ws|
      ensures SplitLines(Join(ws[k])) == ws[k]
    {
      WindowLines(kept, maxChunkLines, k);
      SplitLinesJoin(ws[k]);
    }
  }

  /** Each window consists of non-empty, newline-free lines of its input. */
  lemma {:induction false} WindowLines(lines: seq<string>, size: nat, k: nat)
    requires size > 0
    requires forall j :: 0 <= j < |lines| ==> lines[j] != [] && '\n' !in lines[j]
    requires k < |Windows(lines, size)|
    ensures |Windows(lines, size)[k]| >= 1
    ensures forall j :: 0 <= j < |Windows(lines, size)[k]| ==>
      Windows(lines, size)[k][j] != [] && '\n' !in Windows(lines, size)[k][j]
    decreases |lines|
  {
    var n := if |lines| < size then |lines| else size;
    if k > 0 {
      WindowLines(lines[n..], size, k - 1);
      assert Windows(lines, size)[k] == Windows(lines[n..], size)[k - 1];
    }
  }

  /** A log with no kept line (empty, or only blank and comment lines)
      yields no chunk. */
  lemma NoKeptLinesNoChunks(logText: string, maxChunkLines: nat)
    requires maxChunkLines > 0
    requires forall k :: 0 <= k < |SplitLines(logText)| ==> !IsKept(SplitLines(logText)[k])
    ensures LogChunks(logText, maxChunkLines) == []
  {
    KeptLinesNone(SplitLines(logText));
  }

  /** The empty log and a log of one comment and a blank line give no chunk. */
  lemma CommentOnlyLogs(maxChunkLines: nat)
    requires maxChunkLines > 0
    ensures LogChunks("", maxChunkLines) == []
    ensures LogChunks("# just a comment\n\n", maxChunkLines) == []
  {
    var text := "# just a comment\n\n";
    var comment := "# just a comment";
    assert text[..|text| - 1] == Join([comment, ""]);
    assert '\n' !in comment;
    SplitJoin([comment, ""]);
    assert SplitLines(text) == [comment, ""];
    StripFirst(comment, 0);
    NoKeptLinesNoChunks(text, maxChunkLines);
  }
}
