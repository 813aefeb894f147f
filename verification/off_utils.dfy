/** The string helpers of the second OFF reader (Utils.cpp): `readLines` cuts a stream into
    lines, `explodeString` cuts a line into words, `isACommentOrEmptyLine` recognises the
    lines the reader skips. */
module OffUtils {
  import opened Common

  /** `bufferCapacity`: `readLines` reads the stream in chunks of this many characters. */
  const BUFFER_CAPACITY: nat := 256

  predicate IsBreak(c: char) { c == '\r' || c == '\n' }

  /** No line-break character in `s`. */
  predicate Unbroken(s: string)
  {
    forall k :: 0 <= k < |s| ==> !IsBreak(s[k])
  }

  /** Only line-break characters in `s`. */
  predicate AllBreaks(s: string)
  {
    forall k :: 0 <= k < |s| ==> IsBreak(s[k])
  }

  /** The characters of `s` that are not line breaks, in order. */
  function Text(s: string): (r: string)
    ensures Unbroken(r)
    decreases |s|
  {
    if s == [] then []
    else Text(s[..|s| - 1]) + (if IsBreak(s[|s| - 1]) then [] else [s[|s| - 1]])
  }

  /** `s` up to and including its last '\n'; empty when it holds none. */
  function ThroughLastNewline(s: string): (r: string)
    ensures |r| <= |s| && r == s[..|r|]
    ensures r != [] ==> r[|r| - 1] == '\n'
    ensures forall k :: |r| <= k < |s| ==> s[k] != '\n'
    decreases |s|
  {
    if s == [] then []
    else if s[|s| - 1] == '\n' then s
    else ThroughLastNewline(s[..|s| - 1])
  }

  /** The number of '\n' characters in `s`. */
  function Newlines(s: string): nat
    decreases |s|
  {
    if s == [] then 0 else Newlines(s[..|s| - 1]) + (if s[|s| - 1] == '\n' then 1 else 0)
  }

  /** The lines written one after the other, without separators. */
  function Flatten(ls: seq<string>): string
    decreases |ls|
  {
    if ls == [] then [] else Flatten(ls[..|ls| - 1]) + ls[|ls| - 1]
  }

  /** `std::vector::resize(n)`: truncated, or padded with `fill`. */
  function Resize<T>(s: seq<T>, n: nat, fill: T): (r: seq<T>)
    ensures |r| == n && forall i :: 0 <= i < n && i < |s| ==> r[i] == s[i]
    ensures forall i :: |s| <= i < n ==> r[i] == fill
  {
    if n <= |s| then s[..n] else s + seq(n - |s|, _ => fill)
  }

  /** `s` without the line breaks it starts with. */
  function DropBreaks(s: string): (r: string)
    ensures |r| <= |s|
    decreases |s|
  {
    if s != [] && IsBreak(s[0]) then DropBreaks(s[1..]) else s
  }

  /** The lines `s` ends, and what is left in the open line after it, when the open line
      holds `open` before it, read one character at a time: a '\n' ends the open line and
      the line breaks right after it end no other; a lone '\r' ends nothing and is dropped;
      any other character goes into the open line. */
  function ScanText(open: string, s: string): (seq<string>, string)
    decreases |s|
  {
    if s == [] then ([], open)
    else if s[0] == '\n' then var r := ScanText("", DropBreaks(s[1..])); ([open] + r.0, r.1)
    else if s[0] == '\r' then ScanText(open, s[1..])
    else ScanText(open + [s[0]], s[1..])
  }

  /** Lines finished before the ones of `p`. */
  function Prepend(ls: seq<string>, p: (seq<string>, string)): (seq<string>, string)
  {
    (ls + p.0, p.1)
  }

  /** The lines `readLines` finishes in `input` when the open line holds `open`: each chunk
      of `bufferCapacity` characters is scanned on its own, the open line going on from one
      chunk to the next; a chunk shorter than that is the last. */
  function StreamLines(open: string, input: string): seq<string>
    decreases |input|
  {
    if |input| < BUFFER_CAPACITY then ScanText(open, input).0
    else
      var p := ScanText(open, input[..BUFFER_CAPACITY]);
      p.0 + StreamLines(p.1, input[BUFFER_CAPACITY..])
  }

  /** The line `readLines` has open: the one after the `lineCount` finished lines, if any. */
  function OpenLine(out: seq<string>, lineCount: nat): string
    requires lineCount <= |out|
  {
    if |out| > lineCount then out[lineCount] else ""
  }

  // ---------------------------------------------------------------- facts about the scan

  /** Characters that are no line break go into the open line. */
  lemma {:induction false} ScanUnbroken(open: string, u: string, t: string)
    requires Unbroken(u)
    ensures ScanText(open, u + t) == ScanText(open + u, t)
    decreases |u|
  {
    if u == [] {
      assert u + t == t && open + u == open;
    } else {
      assert (u + t)[0] == u[0] && (u + t)[1..] == u[1..] + t;
      ScanUnbroken(open + [u[0]], u[1..], t);
      assert open + [u[0]] + u[1..] == open + u;
    }
  }

  /** Lone '\r's are dropped. */
  lemma {:induction false} ScanCarriageReturns(open: string, r: string, t: string)
    requires AllBreaks(r) && '\n' !in r
    ensures ScanText(open, r + t) == ScanText(open, t)
    decreases |r|
  {
    if r == [] {
      assert r + t == t;
    } else {
      assert r[0] in r;
      assert (r + t)[0] == r[0] && (r + t)[1..] == r[1..] + t;
      ScanCarriageReturns(open, r[1..], t);
    }
  }

  /** A run of line breaks is dropped when what follows starts with no line break. */
  lemma {:induction false} DropBreaksRun(r: string, t: string)
    requires AllBreaks(r) && (t == [] || !IsBreak(t[0]))
    ensures DropBreaks(r + t) == t
    decreases |r|
  {
    if r == [] {
      assert r + t == t;
    } else {
      assert (r + t)[0] == r[0] && (r + t)[1..] == r[1..] + t;
      DropBreaksRun(r[1..], t);
    }
  }

  /** A run of line breaks holding a '\n' ends the open line, and only that one. */
  lemma {:induction false} ScanNewlineRun(open: string, r: string, t: string)
    requires AllBreaks(r) && '\n' in r && (t == [] || !IsBreak(t[0]))
    ensures ScanText(open, r + t) == Prepend([open], ScanText("", t))
    decreases |r|
  {
    assert (r + t)[0] == r[0] && (r + t)[1..] == r[1..] + t;
    if r[0] == '\n' {
      DropBreaksRun(r[1..], t);
    } else {
      assert '\n' in r[1..];
      ScanNewlineRun(open, r[1..], t);
    }
  }

  // ---------------------------------------------------------------- facts about the text

  lemma FlattenSnoc(ls: seq<string>, l: string)
    ensures Flatten(ls + [l]) == Flatten(ls) + l
  {
    assert (ls + [l])[..|ls|] == ls;
  }

  /** Characters that are no line break are kept as they are. */
  lemma {:induction false} TextOfUnbroken(s: string, t: string)
    requires Unbroken(t)
    ensures Text(s + t) == Text(s) + t
    decreases |t|
  {
    if t == [] {
      assert s + t == s;
    } else {
      var t', c := t[..|t| - 1], t[|t| - 1];
      assert s + t == (s + t') + [c];
      assert (s + t)[..|s + t| - 1] == s + t';
      TextOfUnbroken(s, t');
      AppendAssoc(Text(s), t', [c]);
      assert t' + [c] == t;
    }
  }

  /** Line breaks leave nothing. */
  lemma {:induction false} TextOfBreaks(s: string, t: string)
    requires AllBreaks(t)
    ensures Text(s + t) == Text(s)
    decreases |t|
  {
    if t == [] {
      assert s + t == s;
    } else {
      var t' := t[..|t| - 1];
      assert (s + t)[..|s + t| - 1] == s + t';
      TextOfBreaks(s, t');
    }
  }

  /** Without a '\n' the last line end stays where it was. */
  lemma {:induction false} NoNewlineAfter(s: string, t: string)
    requires '\n' !in t
    ensures ThroughLastNewline(s + t) == ThroughLastNewline(s) && Newlines(s + t) == Newlines(s)
    decreases |t|
  {
    if t == [] {
      assert s + t == s;
    } else {
      var t' := t[..|t| - 1];
      assert (s + t)[..|s + t| - 1] == s + t';
      assert t[|t| - 1] in t;
      NoNewlineAfter(s, t');
    }
  }

  /** Text added after `s` adds no line end before it. */
  lemma {:induction false} NewlinesGrow(s: string, t: string)
    ensures Newlines(s + t) >= Newlines(s)
    decreases |t|
  {
    if t == [] {
      assert s + t == s;
    } else {
      assert (s + t)[..|s + t| - 1] == s + t[..|t| - 1];
      NewlinesGrow(s, t[..|t| - 1]);
    }
  }

  /** After a run of line breaks holding a '\n' (at `k`), the text up to the last line end is
      all the text, and there is one more '\n'. */
  lemma {:induction false} NewlineRun(s: string, t: string, k: nat)
    requires AllBreaks(t) && k < |t| && t[k] == '\n'
    ensures Text(ThroughLastNewline(s + t)) == Text(s) && Newlines(s + t) > Newlines(s)
    decreases |t|
  {
    var t' := t[..|t| - 1];
    assert (s + t)[..|s + t| - 1] == s + t';
    if t[|t| - 1] == '\n' {
      TextOfBreaks(s, t);
      NewlinesGrow(s, t');
    } else {
      assert t'[k] == '\n';
      NewlineRun(s, t', k);
    }
  }

  // ---------------------------------------------------------------- readLines

  /** What `readLines` has built once it has scanned `text`: `lineCount` finished lines and
      possibly one line still open, none holding a line break; all the text read so far
      except the breaks is in them, and the finished lines hold all of it up to the last
      '\n'. */
  ghost predicate LinesRead(out: seq<string>, lineCount: nat, text: string)
  {
    (|out| == lineCount || |out| == lineCount + 1) &&
    (forall i :: 0 <= i < |out| ==> Unbroken(out[i])) &&
    Flatten(out) == Text(text) &&
    Flatten(out[..lineCount]) == Text(ThroughLastNewline(text)) &&
    (lineCount == 0 <==> '\n' !in text) &&
    lineCount <= Newlines(text)
  }

  /** The first `for` loop of a line: up to the next '\r' or '\n' of the chunk; `newLine`
      tells whether it is a '\n'. */
  method ScanLine(buffer: string, scanPos: nat) returns (scanPos': nat, newLine: bool)
    requires scanPos <= |buffer|
    ensures scanPos <= scanPos' <= |buffer| && Unbroken(buffer[scanPos..scanPos'])
    ensures scanPos' < |buffer| ==> IsBreak(buffer[scanPos'])
    ensures newLine <==> scanPos' < |buffer| && buffer[scanPos'] == '\n'
  {
    scanPos', newLine := scanPos, false;
    while scanPos' < |buffer|
      invariant scanPos <= scanPos' <= |buffer| && !newLine
      invariant forall k :: scanPos <= k < scanPos' ==> !IsBreak(buffer[k])
    {
      if buffer[scanPos'] == '\r' {
        break;
      } else if buffer[scanPos'] == '\n' {
        newLine := true;
        break;
      }
      scanPos' := scanPos' + 1;
    }
  }

  /** The second `for` loop ("skip all empty lines"): past every '\r' and '\n' that follow;
      `newLine` becomes true when one of them is a '\n'. */
  method SkipBreaks(buffer: string, scanPos: nat, newLine: bool) returns (scanPos': nat, newLine': bool)
    requires scanPos <= |buffer|
    ensures scanPos <= scanPos' <= |buffer| && AllBreaks(buffer[scanPos..scanPos'])
    ensures scanPos' < |buffer| ==> !IsBreak(buffer[scanPos'])
    ensures newLine' <==> newLine || '\n' in buffer[scanPos..scanPos']
  {
    scanPos', newLine' := scanPos, newLine;
    while scanPos' < |buffer|
      invariant scanPos <= scanPos' <= |buffer| && AllBreaks(buffer[scanPos..scanPos'])
      invariant newLine' <==> newLine || '\n' in buffer[scanPos..scanPos']
    {
      if buffer[scanPos'] == '\r' {
      } else if buffer[scanPos'] == '\n' {
        newLine' := true;
      } else {
        break;
      }
      assert buffer[scanPos..scanPos' + 1] == buffer[scanPos..scanPos'] + [buffer[scanPos']];
      scanPos' := scanPos' + 1;
    }
  }

  /** What one pass of the line loop does to the lines read so far: the `piece` up to the next
      break goes into the open line, opened if there was none, and the run of breaks after it
      finishes that line when it holds a '\n'. */
  lemma StepRead(out: seq<string>, lineCount: nat, text: string, piece: string, run: string,
                 out': seq<string>, lineCount': nat)
    requires LinesRead(out, lineCount, text) && Unbroken(piece) && AllBreaks(run)
    requires |out'| == lineCount + 1 && out'[..lineCount] == out[..lineCount]
    requires forall i :: 0 <= i < |out'| ==> Unbroken(out'[i])
    requires Flatten(out') == Flatten(out) + piece
    requires lineCount' == if '\n' in run then lineCount + 1 else lineCount
    ensures LinesRead(out', lineCount', text + piece + run)
  {
    TextOfUnbroken(text, piece);
    TextOfBreaks(text + piece, run);
    assert '\n' !in piece by {
      assert forall k :: 0 <= k < |piece| ==> piece[k] != '\n';
    }
    NoNewlineAfter(text, piece);
    if '\n' in run {
      var k :| 0 <= k < |run| && run[k] == '\n';
      NewlineRun(text + piece, run, k);
      assert out'[..lineCount'] == out';
    } else {
      NoNewlineAfter(text + piece, run);
    }
  }

  /** What one pass of the line loop reads: the `piece` up to the next break goes into the
      open line, and the run of breaks after it ends that line when it holds a '\n'. */
  lemma ScanPiece(open: string, piece: string, run: string, rest: string, newLine: bool)
    requires Unbroken(piece) && AllBreaks(run) && (rest == [] || !IsBreak(rest[0]))
    requires newLine <==> '\n' in run
    ensures ScanText(open, piece + (run + rest)) ==
            if newLine then Prepend([open + piece], ScanText("", rest)) else ScanText(open + piece, rest)
  {
    ScanUnbroken(open, piece, run + rest);
    if newLine {
      ScanNewlineRun(open + piece, run, rest);
    } else {
      ScanCarriageReturns(open + piece, run, rest);
    }
  }

  /** One pass of the line loop, from `scanPos` over the piece up to `scanEnd` and the breaks
      up to `scanPos'`, leaves the rest of the chunk to be scanned from the new open line. */
  lemma LineScan(buffer: string, scanPos: nat, scanEnd: nat, scanPos': nat, newLine: bool,
                 out: seq<string>, lineCount: nat, out': seq<string>, lineCount': nat)
    requires scanPos <= scanEnd <= scanPos' <= |buffer|
    requires Unbroken(buffer[scanPos..scanEnd]) && AllBreaks(buffer[scanEnd..scanPos'])
    requires scanPos' < |buffer| ==> !IsBreak(buffer[scanPos'])
    requires newLine <==> '\n' in buffer[scanEnd..scanPos']
    requires lineCount <= |out| && |out'| == lineCount + 1
    requires out'[lineCount] == OpenLine(out, lineCount) + buffer[scanPos..scanEnd]
    requires lineCount' == if newLine then lineCount + 1 else lineCount
    ensures ScanText(OpenLine(out, lineCount), buffer[scanPos..]) ==
            Prepend(out'[lineCount..lineCount'], ScanText(OpenLine(out', lineCount'), buffer[scanPos'..]))
  {
    var piece, run, rest := buffer[scanPos..scanEnd], buffer[scanEnd..scanPos'], buffer[scanPos'..];
    assert buffer[scanPos..] == piece + (run + rest);
    assert rest != [] ==> rest[0] == buffer[scanPos'];
    ScanPiece(OpenLine(out, lineCount), piece, run, rest, newLine);
    if newLine {
      assert out'[lineCount..lineCount'] == [OpenLine(out, lineCount) + piece];
      assert OpenLine(out', lineCount') == "";
    } else {
      assert out'[lineCount..lineCount'] == [];
      assert OpenLine(out', lineCount') == OpenLine(out, lineCount) + piece;
      assert [] + ScanText(OpenLine(out', lineCount'), rest).0 == ScanText(OpenLine(out', lineCount'), rest).0;
    }
  }

  /** The lines finished after a pass that kept the first `lc` of them. */
  lemma FinishedGrow(prev: seq<string>, lc: nat, out: seq<string>, lineCount: nat, n: nat)
    requires n <= lc <= lineCount <= |out| && lc <= |prev| && out[..lc] == prev[..lc]
    ensures out[n..lineCount] == prev[n..lc] + out[lc..lineCount]
    ensures out[..lineCount] == prev[..lc] + out[lc..lineCount]
    ensures out[..n] == prev[..n]
  {
    assert out[n..lineCount] == out[n..lc] + out[lc..lineCount];
    assert out[n..lc] == out[..lc][n..];
    assert out[..n] == out[..lc][..n];
  }

  lemma PrependPrepend(a: seq<string>, b: seq<string>, p: (seq<string>, string))
    ensures Prepend(a, Prepend(b, p)) == Prepend(a + b, p)
  {
    assert a + (b + p.0) == (a + b) + p.0;
  }

  /** One chunk of `readLines` read from `at`, ending at `pos`, finishing `ls` and leaving
      `open'` open: a short chunk is the last. */
  lemma StreamStep(input: string, at: nat, pos: nat, open: string, ls: seq<string>, open': string)
    requires at <= pos <= |input|
    requires pos == at + (if |input| - at < BUFFER_CAPACITY then |input| - at else BUFFER_CAPACITY)
    requires ScanText(open, input[at..pos]) == (ls, open')
    ensures pos < at + BUFFER_CAPACITY ==> StreamLines(open, input[at..]) == ls
    ensures pos == at + BUFFER_CAPACITY ==> StreamLines(open, input[at..]) == ls + StreamLines(open', input[pos..])
  {
    var rest := input[at..];
    if |rest| >= BUFFER_CAPACITY {
      assert rest[..BUFFER_CAPACITY] == input[at..pos] && rest[BUFFER_CAPACITY..] == input[pos..];
    } else {
      assert rest == input[at..pos];
    }
  }

  /** The open line, widened to take `piece`: `out.resize(lineCount + 1)` and the append. */
  function AppendToLine(out: seq<string>, lineCount: nat, piece: string): (out': seq<string>)
    requires |out| == lineCount || |out| == lineCount + 1
    ensures |out'| == lineCount + 1 && out'[..lineCount] == out[..lineCount]
    ensures out'[lineCount] == (if |out| == lineCount then [] else out[lineCount]) + piece
    ensures Flatten(out') == Flatten(out) + piece
  {
    var widened := Resize(out, lineCount + 1, "");
    assert Flatten(widened) == Flatten(out) && widened[..lineCount] == out[..lineCount] by {
      if |out| == lineCount {
        assert widened == out + [""];
        FlattenSnoc(out, "");
      } else {
        assert widened == out;
      }
    }
    var out' := widened[lineCount := widened[lineCount] + piece];
    assert Flatten(out') == Flatten(widened) + piece by {
      assert widened == widened[..lineCount] + [widened[lineCount]];
      assert out' == widened[..lineCount] + [widened[lineCount] + piece];
      FlattenSnoc(widened[..lineCount], widened[lineCount]);
      FlattenSnoc(widened[..lineCount], widened[lineCount] + piece);
    }
    out'
  }

  /** One pass of the `while (scanPos < len)` loop: the text up to the next line break goes
      into the open line (opened if needed), the breaks after it are skipped, and a '\n'
      among them finishes the line. */
  method LineStep(buffer: string, scanPos: nat, out: seq<string>, lineCount: nat, ghost before: string)
    returns (scanPos': nat, out': seq<string>, lineCount': nat)
    requires scanPos < |buffer| && LinesRead(out, lineCount, before + buffer[..scanPos])
    ensures scanPos < scanPos' <= |buffer| && LinesRead(out', lineCount', before + buffer[..scanPos'])
    ensures scanPos' < |buffer| ==> !IsBreak(buffer[scanPos'])
    ensures |out'| == lineCount + 1 && out'[..lineCount] == out[..lineCount]
    ensures lineCount <= lineCount' <= lineCount + 1
    ensures !IsBreak(buffer[scanPos]) ==> out'[lineCount] != []
    ensures ScanText(OpenLine(out, lineCount), buffer[scanPos..]) ==
            Prepend(out'[lineCount..lineCount'], ScanText(OpenLine(out', lineCount'), buffer[scanPos'..]))
  {
    var newLine: bool;
    var startPos := scanPos;
    var scanEnd;
    scanEnd, newLine := ScanLine(buffer, scanPos);
    var piece := buffer[startPos..scanEnd];
    out' := AppendToLine(out, lineCount, piece);
    scanPos', newLine := SkipBreaks(buffer, scanEnd, newLine);
    if newLine {
      lineCount' := lineCount + 1;
    } else {
      lineCount' := lineCount;
    }
    ghost var text := before + buffer[..scanPos];
    ghost var run := buffer[scanEnd..scanPos'];
    assert before + buffer[..scanPos'] == text + piece + run by {
      assert buffer[..scanPos'] == buffer[..scanPos] + piece + run;
      AppendAssoc(before, buffer[..scanPos], piece);
      AppendAssoc(before, buffer[..scanPos] + piece, run);
    }
    assert !IsBreak(buffer[scanPos]) ==> piece != [] by {
      if !IsBreak(buffer[scanPos]) {
        assert scanEnd != scanPos;
      }
    }
    assert newLine <==> '\n' in run by {
      if scanEnd < |buffer| && buffer[scanEnd] == '\n' {
        assert run[0] == '\n';
      }
    }
    assert forall i :: 0 <= i < |out'| ==> Unbroken(out'[i]) by {
      forall i | 0 <= i < |out'|
        ensures Unbroken(out'[i])
      {
        if i < lineCount {
          assert out'[i] == out'[..lineCount][i];
        }
      }
    }
    StepRead(out, lineCount, text, piece, run, out', lineCount');
    LineScan(buffer, scanPos, scanEnd, scanPos', newLine, out, lineCount, out', lineCount');
  }

  /** Where the inner loop of `readLines` stands at `scanPos` in a chunk read after `before`,
      having started from `out` with `lineCount` finished lines: the lines read so far, the
      earlier lines kept, every line opened in the chunk after the first one non-empty, and
      the scan of the chunk being the lines finished in it so far followed by the scan of the
      rest from the open line. */
  ghost predicate ChunkRead(buffer: string, before: string, out: seq<string>, lineCount: nat,
                            scanPos: nat, out': seq<string>, lineCount': nat)
    requires scanPos <= |buffer| && lineCount <= |out|
  {
    LinesRead(out', lineCount', before + buffer[..scanPos]) &&
    (0 < scanPos < |buffer| ==> !IsBreak(buffer[scanPos])) &&
    lineCount <= lineCount' && (scanPos == 0 ==> lineCount' == lineCount) &&
    (forall i :: lineCount < i < |out'| ==> out'[i] != []) &&
    out'[..lineCount] == out[..lineCount] &&
    ScanText(OpenLine(out, lineCount), buffer) ==
      Prepend(out'[lineCount..lineCount'], ScanText(OpenLine(out', lineCount'), buffer[scanPos..]))
  }

  /** A pass of the line loop from `at` to `scanPos` keeps `ChunkRead`. */
  lemma ChunkReadStep(buffer: string, before: string, out: seq<string>, lineCount: nat,
                      at: nat, prev: seq<string>, lc: nat, scanPos: nat, out': seq<string>, lineCount': nat)
    requires at < scanPos <= |buffer| && lineCount <= |out|
    requires ChunkRead(buffer, before, out, lineCount, at, prev, lc)
    requires LinesRead(out', lineCount', before + buffer[..scanPos])
    requires scanPos < |buffer| ==> !IsBreak(buffer[scanPos])
    requires |out'| == lc + 1 && out'[..lc] == prev[..lc] && lc <= lineCount' <= lc + 1
    requires !IsBreak(buffer[at]) ==> out'[lc] != []
    requires ScanText(OpenLine(prev, lc), buffer[at..]) ==
             Prepend(out'[lc..lineCount'], ScanText(OpenLine(out', lineCount'), buffer[scanPos..]))
    ensures ChunkRead(buffer, before, out, lineCount, scanPos, out', lineCount')
  {
    FinishedGrow(prev, lc, out', lineCount', lineCount);
    PrependPrepend(prev[lineCount..lc], out'[lc..lineCount'], ScanText(OpenLine(out', lineCount'), buffer[scanPos..]));
    forall i | lineCount < i < |out'|
      ensures out'[i] != []
    {
      if i < lc {
        assert out'[i] == out'[..lc][i] == prev[..lc][i];
      }
    }
  }

  /** The inner loop of `readLines` over one chunk of at most `bufferCapacity` characters. */
  method ReadChunk(buffer: string, out: seq<string>, lineCount: nat, ghost before: string, ghost text: string)
    returns (out': seq<string>, lineCount': nat)
    requires LinesRead(out, lineCount, before) && text == before + buffer
    ensures LinesRead(out', lineCount', text)
    ensures forall i :: lineCount < i < |out'| ==> out'[i] != []
    ensures lineCount <= lineCount' && out'[..lineCount] == out[..lineCount]
    ensures ScanText(OpenLine(out, lineCount), buffer) == (out'[lineCount..lineCount'], OpenLine(out', lineCount'))
  {
    var scanPos := 0;
    var len := |buffer|;
    out', lineCount' := out, lineCount;
    assert ChunkRead(buffer, before, out, lineCount, 0, out', lineCount') by {
      assert before + buffer[..0] == before && buffer[0..] == buffer && out'[lineCount..lineCount'] == [];
      assert [] + ScanText(OpenLine(out, lineCount), buffer).0 == ScanText(OpenLine(out, lineCount), buffer).0;
    }
    while scanPos < len
      invariant scanPos <= len && ChunkRead(buffer, before, out, lineCount, scanPos, out', lineCount')
    {
      ghost var (prev, lc, at) := (out', lineCount', scanPos);
      scanPos, out', lineCount' := LineStep(buffer, scanPos, out', lineCount', before);
      ChunkReadStep(buffer, before, out, lineCount, at, prev, lc, scanPos, out', lineCount');
    }
    ChunkReadEnd(buffer, before, text, out, lineCount, out', lineCount');
  }

  /** At the end of the chunk, `ChunkRead` is what `readLines` has read of it. */
  lemma ChunkReadEnd(buffer: string, before: string, text: string, out: seq<string>, lineCount: nat,
                     out': seq<string>, lineCount': nat)
    requires lineCount <= |out| && text == before + buffer
    requires ChunkRead(buffer, before, out, lineCount, |buffer|, out', lineCount')
    ensures LinesRead(out', lineCount', text)
    ensures forall i :: lineCount < i < |out'| ==> out'[i] != []
    ensures lineCount <= lineCount' && out'[..lineCount] == out[..lineCount]
    ensures ScanText(OpenLine(out, lineCount), buffer) == (out'[lineCount..lineCount'], OpenLine(out', lineCount'))
  {
    assert buffer[..|buffer|] == buffer;
    assert buffer[|buffer|..] == [] && out'[lineCount..lineCount'] + [] == out'[lineCount..lineCount'];
  }

  /** One turn of `while (input)`: a read of up to `bufferCapacity` characters from `pos`,
      which leaves the stream good only when it filled the buffer, and the chunk's lines. */
  method ReadBlock(input: string, pos: nat, out: seq<string>, lineCount: nat)
    returns (pos': nat, good: bool, out': seq<string>, lineCount': nat)
    requires pos <= |input| && LinesRead(out, lineCount, input[..pos])
    ensures pos' == pos + (if |input| - pos < BUFFER_CAPACITY then |input| - pos else BUFFER_CAPACITY)
    ensures good <==> pos' == pos + BUFFER_CAPACITY
    ensures pos' <= |input| && LinesRead(out', lineCount', input[..pos'])
    ensures forall i :: lineCount < i < |out'| ==> out'[i] != []
    ensures lineCount <= lineCount' && out'[..lineCount] == out[..lineCount]
    ensures ScanText(OpenLine(out, lineCount), input[pos..pos']) == (out'[lineCount..lineCount'], OpenLine(out', lineCount'))
  {
    var len := if |input| - pos < BUFFER_CAPACITY then |input| - pos else BUFFER_CAPACITY;
    var buffer := input[pos..pos + len];
    good := len == BUFFER_CAPACITY;
    assert input[..pos] + buffer == input[..pos + len];
    out', lineCount' := ReadChunk(buffer, out, lineCount, input[..pos], input[..pos + len]);
    pos' := pos + len;
  }

  /** Where `while (input)` stands after reading `input[..pos]`: the lines read so far, the
      stream good only while no read came back short, and the lines still to come those of
      the rest of the stream from the open line. */
  ghost predicate StreamRead(input: string, pos: nat, good: bool, out: seq<string>, lineCount: nat)
  {
    pos <= |input| && LinesRead(out, lineCount, input[..pos]) &&
    (!good ==> pos == |input|) &&
    (|input| < BUFFER_CAPACITY && pos > 0 ==> !good) &&
    (|input| < BUFFER_CAPACITY ==> forall i :: 0 < i < |out| ==> out[i] != []) &&
    (good ==> StreamLines("", input) == out[..lineCount] + StreamLines(OpenLine(out, lineCount), input[pos..])) &&
    (!good ==> StreamLines("", input) == out[..lineCount])
  }

  /** A read of one chunk keeps `StreamRead`. */
  lemma StreamReadStep(input: string, at: nat, prev: seq<string>, lc: nat,
                       pos: nat, good: bool, out: seq<string>, lineCount: nat)
    requires StreamRead(input, at, true, prev, lc)
    requires pos == at + (if |input| - at < BUFFER_CAPACITY then |input| - at else BUFFER_CAPACITY)
    requires good <==> pos == at + BUFFER_CAPACITY
    requires pos <= |input| && LinesRead(out, lineCount, input[..pos])
    requires forall i :: lc < i < |out| ==> out[i] != []
    requires lc <= lineCount && out[..lc] == prev[..lc]
    requires ScanText(OpenLine(prev, lc), input[at..pos]) == (out[lc..lineCount], OpenLine(out, lineCount))
    ensures StreamRead(input, pos, good, out, lineCount)
  {
    FinishedGrow(prev, lc, out, lineCount, 0);
    StreamStep(input, at, pos, OpenLine(prev, lc), out[lc..lineCount], OpenLine(out, lineCount));
    if |input| < BUFFER_CAPACITY {
      assert at == 0 && lc == 0;
    }
  }

  /** `readLines`: the stream `input` is read in chunks of `bufferCapacity` characters until
      a read comes back short; the result holds only finished lines.
      No line holds a line break; the lines put together are the text of the stream up to
      its last '\n' without its line breaks (a lone '\r' ends no line, and what follows the
      last '\n' is dropped); there is a line exactly when the stream holds a '\n', and never
      more lines than '\n's; and within one chunk consecutive line breaks end a single line,
      so a stream shorter than a chunk yields no empty line but perhaps the first. */
  method ReadLines(input: string) returns (lines: seq<string>)
    ensures forall i :: 0 <= i < |lines| ==> Unbroken(lines[i])
    ensures Flatten(lines) == Text(ThroughLastNewline(input))
    ensures |lines| == 0 <==> '\n' !in input
    ensures |lines| <= Newlines(input)
    ensures |input| < BUFFER_CAPACITY ==> forall i :: 0 < i < |lines| ==> lines[i] != []
    ensures lines == StreamLines("", input)
    ensures |input| < BUFFER_CAPACITY ==> lines == ScanText("", input).0
  {
    var out: seq<string> := [];
    var lineCount: nat := 0;
    var pos: nat := 0;
    var good := true;
    assert StreamRead(input, pos, good, out, lineCount) by {
      assert input[0..] == input;
    }
    while good
      invariant StreamRead(input, pos, good, out, lineCount)
      decreases |input| - pos + (if good then 1 else 0)
    {
      ghost var (prev, lc, at) := (out, lineCount, pos);
      pos, good, out, lineCount := ReadBlock(input, pos, out, lineCount);
      StreamReadStep(input, at, prev, lc, pos, good, out, lineCount);
    }
    lines := Resize(out, lineCount, "");
    StreamReadEnd(input, pos, out, lineCount, lines);
  }

  /** Once a read has come back short, the finished lines are what `readLines` returns. */
  lemma StreamReadEnd(input: string, pos: nat, out: seq<string>, lineCount: nat, lines: seq<string>)
    requires StreamRead(input, pos, false, out, lineCount)
    requires |lines| == lineCount && forall i :: 0 <= i < lineCount && i < |out| ==> lines[i] == out[i]
    ensures forall i :: 0 <= i < |lines| ==> Unbroken(lines[i])
    ensures Flatten(lines) == Text(ThroughLastNewline(input))
    ensures |lines| == 0 <==> '\n' !in input
    ensures |lines| <= Newlines(input)
    ensures |input| < BUFFER_CAPACITY ==> forall i :: 0 < i < |lines| ==> lines[i] != []
    ensures lines == StreamLines("", input)
  {
    assert input[..pos] == input;
    assert lines == out[..lineCount];
  }

  // ---------------------------------------------------------------- explodeString

  /** The `nextSeparator` lambda: the first position from `uPos` on that holds one of the
      separators, or `None` (`npos`). */
  method NextSeparator(text: string, separators: seq<char>, uPos: nat) returns (pos: Option<nat>)
    requires uPos <= |text|
    ensures pos.None? ==> forall i :: uPos <= i < |text| ==> text[i] !in separators
    ensures pos.Some? ==> (uPos <= pos.value < |text| && text[pos.value] in separators &&
                           forall i :: uPos <= i < pos.value ==> text[i] !in separators)
  {
    for i := uPos to |text|
      invariant forall k :: uPos <= k < i ==> text[k] !in separators
    {
      for j := 0 to |separators|
        invariant forall m :: 0 <= m < j ==> text[i] != separators[m]
      {
        if text[i] == separators[j] {
          return Some(i);
        }
      }
    }
    return None;
  }

  /** `explodeString`: the words of `text` between separators are appended to `out`, in
      order; the entries already in `out` stay as they are. */
  /** With no separator left from `uPos` on, the rest of the text is one last token, if any. */
  lemma LastToken(text: string, separators: seq<char>, uPos: nat)
    requires uPos <= |text| && forall i :: uPos <= i < |text| ==> text[i] !in separators
    ensures Tokens(text[uPos..], separators) == (if |text| - uPos > 0 then [text[uPos..|text|]] else [])
  {
    TokensNoSeparator(text[uPos..], separators);
    assert text[uPos..|text|] == text[uPos..];
  }

  /** At the first separator `p` from `uPos` on, the run before it (when non-empty) is the next
      token and the rest come after `p`. */
  lemma NextToken(text: string, separators: seq<char>, uPos: nat, p: nat, out: seq<string>)
    requires uPos <= p < |text| && text[p] in separators
    requires forall i :: uPos <= i < p ==> text[i] !in separators
    ensures out + Tokens(text[uPos..], separators) ==
            (out + (if p - uPos > 0 then [text[uPos..p]] else [])) + Tokens(text[p + 1..], separators)
  {
    var rest := text[uPos..];
    TokensAtSeparator(rest, p - uPos, separators);
    assert rest[..p - uPos] == text[uPos..p] && rest[p - uPos + 1..] == text[p + 1..];
    AppendAssoc(out, if p - uPos > 0 then [text[uPos..p]] else [], Tokens(text[p + 1..], separators));
  }

  method ExplodeString(text: string, separators: seq<char>, out: seq<string>) returns (out': seq<string>)
    ensures out' == out + Tokens(text, separators)
  {
    var i := 0;
    var uPos := 0;
    out' := out;
    assert text[0..] == text;
    while i < 1
      invariant uPos <= |text| && 0 <= i <= 1
      invariant i == 0 ==> out' + Tokens(text[uPos..], separators) == out + Tokens(text, separators)
      invariant i == 1 ==> out' == out + Tokens(text, separators)
      decreases |text| - uPos, 1 - i
    {
      var pos := NextSeparator(text, separators, uPos);
      if pos.None? {
        LastToken(text, separators, uPos);
        if |text| - uPos > 0 {
          out' := out' + [text[uPos..|text|]];
        }
        i := 1;
      } else {
        var p := pos.value;
        NextToken(text, separators, uPos, p, out');
        if p - uPos > 0 {
          out' := out' + [text[uPos..p]];
        }
        uPos := p + 1;
      }
    }
  }

  /** The words `explodeString` appends are non-empty and free of separators, and put together
      they are the text without its separators. */
  lemma ExplodedWords(text: string, separators: seq<char>)
    ensures forall w :: w in Tokens(text, separators) ==> w != [] && forall c :: c in w ==> c !in separators
    ensures Concat(Tokens(text, separators)) == Without(text, separators)
  {
    TokensShape(text, separators);
    TokensConcat(text, separators);
  }

  // ---------------------------------------------------------------- isACommentOrEmptyLine

  /** `isACommentOrEmptyLine`: the lines the second reader skips. */
  predicate IsCommentOrEmptyLine(text: string)
  {
    if |text| > 0 then text[0] == '#' else true
  }
}
