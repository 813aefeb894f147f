/** The second OFF reader, `ReaderWriterOFF::readNode(std::istream&)`: the lines of the
    stream drive a state machine (magic number, counts, vertices, polygons, finished) that
    collects shared vertices, shared colours and polygons; the polygons are then flattened
    into one vertex array with one `DrawArrays(GL_POLYGON)` per polygon. */
module OffReader {
  import opened Common
  import opened OffTypes
  import opened OffUtils

  datatype ParsingState = MagicNumber | Counters | Vertices | Polygons | Finished

  /** What `osg::Vec4f()` and `osg::Vec3f()` hold: all zero. */
  const ZERO4 := Vec4(0.0, 0.0, 0.0, 0.0)

  /** A face read from the file: the vertex indices and a colour (`Polygon()` leaves it zero). */
  datatype Polygon = Polygon(indices: seq<nat>, color: Vec4)

  /** `wordsSeparators`. */
  const WORD_SEPARATORS: seq<char> := [' ', '\t']

  // ---------------------------------------------------------------- sscanf with %d

  /** A directive of a `sscanf` format: an ordinary character, white space, or `%d`. */
  datatype Directive = Literal(c: char) | Blank | Decimal

  /** What a `sscanf` call did: the values it stored, in order, and whether it stopped
      because the input ended (an input failure) rather than on a mismatch. */
  datatype Scanned = Scanned(values: seq<Int32>, endOfInput: bool)

  /** `s` without its leading white space. */
  function SkipSpace(s: string): (t: string)
    ensures |t| <= |s| && t == s[|s| - |t|..]
    ensures t != [] ==> !IsSpace(t[0])
    decreases |s|
  {
    if s != [] && IsSpace(s[0]) then SkipSpace(s[1..]) else s
  }

  /** `sscanf(s, format, ...)`: white space in the format matches any amount of white space;
      an ordinary character must come next; `%d` skips white space and reads an integer. The
      first directive that fails ends the scan. */
  function Scanf(format: seq<Directive>, s: string): (r: Scanned)
    decreases |format|
  {
    if format == [] then Scanned([], false)
    else match format[0]
      case Blank => Scanf(format[1..], SkipSpace(s))
      case Literal(c) =>
        if s == [] then Scanned([], true)
        else if s[0] != c then Scanned([], false)
        else Scanf(format[1..], s[1..])
      case Decimal =>
        var t := SkipSpace(s);
        if t == [] then Scanned([], true)
        else match ScanInt(t)
          case None => Scanned([], false)
          case Some(p) =>
            var rest := Scanf(format[1..], t[p.1..]);
            Scanned([p.0] + rest.values, rest.endOfInput)
  }

  /** The value `sscanf` returns: `EOF` (-1) when the input ended before the first
      conversion, else the number of values stored. */
  function ScanfResult(r: Scanned): int
  {
    if r.values == [] && r.endOfInput then -1 else |r.values|
  }

  /** `"OFF %d %d %d"` and `"%d %d %d"`. */
  const OFF_COUNTS: seq<Directive> :=
    [Literal('O'), Literal('F'), Literal('F'), Blank, Decimal, Blank, Decimal, Blank, Decimal]
  const COUNTS: seq<Directive> := [Decimal, Blank, Decimal, Blank, Decimal]

  // ---------------------------------------------------------------- the line state machine

  /** The local variables of the parsing loop. */
  datatype Parser = Parser(
    state: ParsingState,
    verticesCount: Int32, facesCount: Int32, edgesCount: Int32, indicesCount: Int32,
    colorByFaces: bool, vector3: Vec3, vector4: Vec4,
    sharedVertices: seq<Vec3>, sharedColors: seq<Vec4>, polygons: seq<Polygon>)

  const PARSER_START := Parser(MagicNumber, 0, 0, 0, 0, false, ZERO3, ZERO4, [], [], [])

  /** The loop goes on with the new variables, or `std::length_error` escapes from a
      `reserve` call. */
  datatype Outcome = Thrown | Parsed(p: Parser)

  /** `sscanf` stores its values into the counts in order and leaves the others as they were. */
  function StoreCounts(p: Parser, vs: seq<Int32>): (q: Parser)
  {
    p.(verticesCount := if |vs| > 0 then vs[0] else p.verticesCount,
       facesCount := if |vs| > 1 then vs[1] else p.facesCount,
       edgesCount := if |vs| > 2 then vs[2] else p.edgesCount)
  }

  /** The three `reserve` calls, then the Vertices state: a negative count, converted to
      `size_t`, is above `max_size()`, and `reserve` throws. */
  function EnterVertices(p: Parser): (r: Outcome)
    ensures r.Parsed? <==> p.verticesCount >= 0 && p.facesCount >= 0
    ensures r.Parsed? ==> r.p == p.(state := Vertices)
  {
    if p.verticesCount < 0 || p.facesCount < 0 then Thrown else Parsed(p.(state := Vertices))
  }

  /** The MagicNumber state. The line "OFF" leads to the counts; a line `sscanf` reads as
      "OFF %d %d %d" with a non-zero result (the end of input before any number counts, so
      an empty line or "OFF " qualifies) stores the numbers it read and goes straight to the
      vertices; anything else is passed over. */
  function MagicStep(p: Parser, line: string): (r: Outcome)
    requires p.state == MagicNumber
    ensures line == "OFF" ==> r == Parsed(p.(state := Counters))
    ensures line != "OFF" && ScanfResult(Scanf(OFF_COUNTS, line)) == 0 ==> r == Parsed(p)
    ensures r.Parsed? && r.p.state == Vertices <==>
      line != "OFF" && ScanfResult(Scanf(OFF_COUNTS, line)) != 0 && r.Parsed?
    ensures r.Parsed? && r.p.state == Vertices ==>
      r.p == StoreCounts(p, Scanf(OFF_COUNTS, line).values).(state := Vertices)
  {
    if line == "OFF" then Parsed(p.(state := Counters))
    else
      var scanned := Scanf(OFF_COUNTS, line);
      if ScanfResult(scanned) != 0 then EnterVertices(StoreCounts(p, scanned.values))
      else Parsed(p)
  }

  /** The Counters state: comments and empty lines are skipped; whatever numbers "%d %d %d"
      reads are stored, but only a line with all three moves on to the vertices. */
  function CountersStep(p: Parser, line: string): (r: Outcome)
    requires p.state == Counters
    ensures IsCommentOrEmptyLine(line) ==> r == Parsed(p)
    ensures r.Parsed? ==> r.p.state in {Counters, Vertices}
    ensures r.Parsed? && r.p.state == Vertices <==>
      !IsCommentOrEmptyLine(line) && ScanfResult(Scanf(COUNTS, line)) == 3 && r.Parsed?
    ensures r.Thrown? ==> ScanfResult(Scanf(COUNTS, line)) == 3
  {
    if IsCommentOrEmptyLine(line) then Parsed(p)
    else
      var scanned := Scanf(COUNTS, line);
      var q := StoreCounts(p, scanned.values);
      if ScanfResult(scanned) == 3 then EnterVertices(q) else Parsed(q)
  }

  /** An empty line in the MagicNumber state: `sscanf` returns `EOF`, which is true, so the
      reader goes to the vertices with the counts it has. */
  lemma EmptyMagicLine(p: Parser)
    requires p.state == MagicNumber
    ensures MagicStep(p, "") == EnterVertices(p)
  {
    assert StoreCounts(p, []) == p;
  }

  /** The values the `%f` conversions of "%f %f %f %f %f %f %f" store: at most seven. */
  function ScanVertex(conv: Conv, line: string): (fs: seq<real>)
    ensures |fs| <= 7
  {
    var all := conv.scanFloats(line);
    if |all| <= 7 then all else all[..7]
  }

  /** `vector3` after `sscanf` stored `fs` into x, y, z, r, g, b, a. */
  function Stored3(v: Vec3, fs: seq<real>): Vec3
  {
    Vec3(if |fs| > 0 then fs[0] else v.x, if |fs| > 1 then fs[1] else v.y,
         if |fs| > 2 then fs[2] else v.z)
  }

  /** `vector4` after the same call. */
  function Stored4(v: Vec4, fs: seq<real>): Vec4
  {
    Vec4(if |fs| > 3 then fs[3] else v.x, if |fs| > 4 then fs[4] else v.y,
         if |fs| > 5 then fs[5] else v.z, if |fs| > 6 then fs[6] else v.w)
  }

  /** The Vertices state: comments and empty lines are skipped. Three numbers add a position,
      six a position and an opaque RGB colour, seven a position and an RGBA colour; any other
      count adds nothing. The polygons come next once there are as many positions as
      announced and either no colour or one per position. */
  function VertexStep(conv: Conv, p: Parser, line: string): (q: Parser)
    requires p.state == Vertices
    ensures IsCommentOrEmptyLine(line) ==> q == p
    ensures var fs := ScanVertex(conv, line);
      !IsCommentOrEmptyLine(line) ==>
        (|fs| == 3 ==> q.sharedVertices == p.sharedVertices + [Vec3(fs[0], fs[1], fs[2])] &&
                       q.sharedColors == p.sharedColors) &&
        (|fs| == 6 ==> q.sharedVertices == p.sharedVertices + [Vec3(fs[0], fs[1], fs[2])] &&
                       q.sharedColors == p.sharedColors + [Vec4(fs[3], fs[4], fs[5], 1.0)]) &&
        (|fs| == 7 ==> q.sharedVertices == p.sharedVertices + [Vec3(fs[0], fs[1], fs[2])] &&
                       q.sharedColors == p.sharedColors + [Vec4(fs[3], fs[4], fs[5], fs[6])]) &&
        (|fs| != 3 && |fs| != 6 && |fs| != 7 ==>
           q.sharedVertices == p.sharedVertices && q.sharedColors == p.sharedColors)
    ensures !IsCommentOrEmptyLine(line) ==>
      (q.state == Polygons <==> |q.sharedVertices| == q.verticesCount &&
                                (|q.sharedColors| == 0 || |q.sharedColors| == q.verticesCount))
    ensures q.state in {Vertices, Polygons} && q.polygons == p.polygons
    ensures q.verticesCount == p.verticesCount && q.facesCount == p.facesCount
  {
    if IsCommentOrEmptyLine(line) then p
    else
      var fs := ScanVertex(conv, line);
      var v3 := Stored3(p.vector3, fs);
      var v4 := Stored4(p.vector4, fs);
      var q :=
        if |fs| == 3 then p.(vector3 := v3, vector4 := v4, sharedVertices := p.sharedVertices + [v3])
        else if |fs| == 6 then
          p.(vector3 := v3, vector4 := v4.(w := 1.0), sharedVertices := p.sharedVertices + [v3],
             sharedColors := p.sharedColors + [v4.(w := 1.0)])
        else if |fs| == 7 then
          p.(vector3 := v3, vector4 := v4, sharedVertices := p.sharedVertices + [v3],
             sharedColors := p.sharedColors + [v4])
        else p.(vector3 := v3, vector4 := v4);
      if |q.sharedVertices| == q.verticesCount &&
         (|q.sharedColors| == 0 || |q.sharedColors| == q.verticesCount)
      then q.(state := Polygons) else q
  }

  /** A face line is looked at only when its word count is 1+k, 1+k+3 or 1+k+4. */
  predicate WordCountFits(n: int, k: int)
  {
    n == 1 + k || n == 1 + k + 3 || n == 1 + k + 4
  }

  /** The indices of `ws` that `%d` reads and that lie in `[0, verticesCount)`, in order. */
  function KeptIndices(ws: seq<string>, verticesCount: int): (r: seq<nat>)
    ensures |r| <= |ws| && forall i :: 0 <= i < |r| ==> r[i] < verticesCount
    decreases |ws|
  {
    if ws == [] then []
    else
      var r := KeptIndices(ws[..|ws| - 1], verticesCount);
      match ScanInt(ws[|ws| - 1])
      case Some(v) => if 0 <= v.0 < verticesCount then r + [v.0] else r
      case None => r
  }

  /** Some word of `ws` reads as an index outside `[0, verticesCount)`. */
  function AnyOutOfRange(ws: seq<string>, verticesCount: int): bool
    decreases |ws|
  {
    if ws == [] then false
    else
      AnyOutOfRange(ws[..|ws| - 1], verticesCount) ||
      match ScanInt(ws[|ws| - 1])
      case Some(v) => !(0 <= v.0 < verticesCount)
      case None => false
  }

  /** Every index word is read and in range exactly when all of them are kept. */
  lemma {:induction false} AllKept(ws: seq<string>, verticesCount: int)
    ensures |KeptIndices(ws, verticesCount)| == |ws| <==>
      forall i :: 0 <= i < |ws| ==> ScanInt(ws[i]).Some? && 0 <= ScanInt(ws[i]).value.0 < verticesCount
    decreases |ws|
  {
    if ws != [] {
      var ws' := ws[..|ws| - 1];
      AllKept(ws', verticesCount);
      assert forall i :: 0 <= i < |ws'| ==> ws'[i] == ws[i];
    }
  }

  /** `vector4` after the colour words: channel i takes the value `%f` reads from word i, and
      keeps its old value when that word reads as nothing. */
  function SetChannels(conv: Conv, ws: seq<string>, v: Vec4): (u: Vec4)
    requires |ws| <= 4
    decreases |ws|
  {
    if ws == [] then v
    else
      var u := SetChannels(conv, ws[..|ws| - 1], v);
      var fs := conv.scanFloats(ws[|ws| - 1]);
      if |fs| > 0 then WithComponent(u, |ws| - 1, fs[0]) else u
  }

  /** The Polygons state on a line whose word count fits a non-negative index count `k`: a
      polygon with the kept indices is added, unless an index failed to read while none was
      out of range. The colour words apply only when there are some and no index was out of
      range (alpha 1 with three of them). The reader is finished once the polygon count is
      the announced face count. */
  function AddPolygon(conv: Conv, q: Parser, words: seq<string>, k: nat): (r: Parser)
    requires WordCountFits(|words|, k)
    ensures r == q.(vector4 := r.vector4, colorByFaces := r.colorByFaces, polygons := r.polygons, state := r.state)
    ensures |q.polygons| <= |r.polygons| <= |q.polygons| + 1 && r.polygons[..|q.polygons|] == q.polygons
    ensures |r.polygons| == q.facesCount ==> r.state == Finished
    ensures |r.polygons| != q.facesCount ==> r.state == q.state
    ensures |r.polygons| == |q.polygons| + 1 ==>
      var added := r.polygons[|q.polygons|];
      (forall j :: 0 <= j < |added.indices| ==> added.indices[j] < q.verticesCount) &&
      (|added.indices| == k || AnyOutOfRange(words[1..1 + k], q.verticesCount)) &&
      (|words| == 1 + k || AnyOutOfRange(words[1..1 + k], q.verticesCount) ==> added.color == ZERO4)
  {
    var nb := |words| - (k + 1);
    var idx := KeptIndices(words[1..1 + k], q.verticesCount);
    var outOfRange := AnyOutOfRange(words[1..1 + k], q.verticesCount);
    var v4 := SetChannels(conv, words[1 + k..], q.vector4);
    var apply := nb > 0 && !outOfRange;
    var v4' := if apply && nb == 3 then v4.(w := 1.0) else v4;
    var polys :=
      if |idx| != k && !outOfRange then q.polygons
      else q.polygons + [Polygon(idx, if apply then v4' else ZERO4)];
    q.(vector4 := v4', colorByFaces := q.colorByFaces || apply, polygons := polys,
       state := if |polys| == q.facesCount then Finished else q.state)
  }

  /** The Polygons state: comments, empty lines and lines without words are skipped, and so
      is a line whose first word is no integer k or whose word count is not 1+k, 1+k+3 or
      1+k+4. A negative k makes `reserve` throw. Otherwise at most one polygon is added, all
      its indices below the vertex count; it holds all k indices unless one was out of range,
      and a polygon with an out-of-range index or no colour words gets no colour. */
  function FaceStep(conv: Conv, p: Parser, line: string): (r: Outcome)
    requires p.state == Polygons
    ensures r.Parsed? ==> (r.p.sharedVertices == p.sharedVertices && r.p.sharedColors == p.sharedColors &&
                           r.p.verticesCount == p.verticesCount && r.p.facesCount == p.facesCount)
    ensures r.Parsed? ==> (|p.polygons| <= |r.p.polygons| <= |p.polygons| + 1 &&
                           r.p.polygons[..|p.polygons|] == p.polygons)
    ensures r.Parsed? ==> ((r.p.state == Finished ==> |r.p.polygons| == p.facesCount) &&
                           (r.p.state == Polygons || r.p.state == Finished))
    ensures var words := Tokens(line, WORD_SEPARATORS);
      r.Parsed? && |r.p.polygons| == |p.polygons| + 1 ==>
        !IsCommentOrEmptyLine(line) && words != [] && ScanInt(words[0]).Some? &&
        var k := ScanInt(words[0]).value.0;
        var added := r.p.polygons[|p.polygons|];
        0 <= k && WordCountFits(|words|, k) &&
        (forall j :: 0 <= j < |added.indices| ==> added.indices[j] < p.verticesCount) &&
        (|added.indices| == k || AnyOutOfRange(words[1..1 + k], p.verticesCount)) &&
        (|words| == 1 + k || AnyOutOfRange(words[1..1 + k], p.verticesCount) ==> added.color == ZERO4)
    ensures var words := Tokens(line, WORD_SEPARATORS);
      r.Thrown? ==> (words != [] && ScanInt(words[0]).Some? && ScanInt(words[0]).value.0 < 0 &&
                     WordCountFits(|words|, ScanInt(words[0]).value.0))
  {
    var words := Tokens(line, WORD_SEPARATORS);
    if IsCommentOrEmptyLine(line) || words == [] then Parsed(p)
    else match ScanInt(words[0])
      case None => Parsed(p)
      case Some(kn) =>
        var k := kn.0;
        var q := p.(indicesCount := k);
        if !WordCountFits(|words|, k) then Parsed(q)
        else if k < 0 then Thrown
        else Parsed(AddPolygon(conv, q, words, k))
  }

  /** One turn of the `for (std::string& line : lines)` loop. */
  function Step(conv: Conv, p: Parser, line: string): Outcome
  {
    match p.state
    case MagicNumber => MagicStep(p, line)
    case Counters => CountersStep(p, line)
    case Vertices => Parsed(VertexStep(conv, p, line))
    case Polygons => FaceStep(conv, p, line)
    case Finished => Parsed(p)
  }

  /** The parsing loop over all the lines. */
  function ParseAll(conv: Conv, lines: seq<string>): Outcome
    decreases |lines|
  {
    if lines == [] then Parsed(PARSER_START)
    else match ParseAll(conv, lines[..|lines| - 1])
      case Thrown => Thrown
      case Parsed(p) => Step(conv, p, lines[|lines| - 1])
  }

  // ---------------------------------------------------------------- what the loop keeps

  /** Every polygon index is below `n`. */
  predicate IndicesBelow(polys: seq<Polygon>, n: int)
  {
    forall i, j :: 0 <= i < |polys| && 0 <= j < |polys[i].indices| ==> polys[i].indices[j] < n
  }

  /** What holds between lines: nothing is collected before the counts are known; once the
      polygons are read there is one position per announced vertex and either no colour or
      one per vertex; every polygon index names a vertex; and a finished reader holds the
      announced number of polygons. */
  predicate Consistent(p: Parser)
  {
    (p.state in {MagicNumber, Counters} ==>
       p.sharedVertices == [] && p.sharedColors == [] && p.polygons == []) &&
    (p.state == Vertices ==> p.polygons == []) &&
    (p.state in {Polygons, Finished} ==>
       |p.sharedVertices| == p.verticesCount &&
       (|p.sharedColors| == 0 || |p.sharedColors| == p.verticesCount)) &&
    IndicesBelow(p.polygons, p.verticesCount) &&
    (p.state == Finished ==> |p.polygons| == p.facesCount)
  }

  lemma StepConsistent(conv: Conv, p: Parser, line: string)
    requires Consistent(p)
    ensures Step(conv, p, line).Parsed? ==> Consistent(Step(conv, p, line).p)
  {
    if p.state == Polygons {
      var r := FaceStep(conv, p, line);
      if r.Parsed? {
        var polys := r.p.polygons;
        forall i, j | 0 <= i < |polys| && 0 <= j < |polys[i].indices|
          ensures polys[i].indices[j] < r.p.verticesCount
        {
          if i < |p.polygons| {
            assert polys[i] == polys[..|p.polygons|][i];
          }
        }
      }
    }
  }

  /** The loop keeps the reader consistent, line after line. */
  lemma {:induction false} ParseAllConsistent(conv: Conv, lines: seq<string>)
    ensures ParseAll(conv, lines).Parsed? ==> Consistent(ParseAll(conv, lines).p)
    decreases |lines|
  {
    if lines != [] {
      ParseAllConsistent(conv, lines[..|lines| - 1]);
      var prev := ParseAll(conv, lines[..|lines| - 1]);
      if prev.Parsed? {
        StepConsistent(conv, prev.p, lines[|lines| - 1]);
      }
    }
  }

  /** Once `reserve` has thrown, no later line brings the reader back. */
  lemma {:induction false} ThrownStays(conv: Conv, lines: seq<string>, n: nat)
    requires n <= |lines| && ParseAll(conv, lines[..n]) == Thrown
    ensures ParseAll(conv, lines) == Thrown
    decreases |lines| - n
  {
    if n < |lines| {
      assert lines[..n + 1][..n] == lines[..n];
      ThrownStays(conv, lines, n + 1);
    } else {
      assert lines[..n] == lines;
    }
  }

  // ---------------------------------------------------------------- the loops of readNode

  /** The `%d` of one index word: kept when in range, otherwise flagged out of range. */
  method ReadIndex(word: string, verticesCount: Int32, ghost ws: seq<string>, indices: seq<nat>, outOfRange: bool)
    returns (indices': seq<nat>, outOfRange': bool)
    requires indices == KeptIndices(ws, verticesCount) && outOfRange == AnyOutOfRange(ws, verticesCount)
    ensures indices' == KeptIndices(ws + [word], verticesCount)
    ensures outOfRange' == AnyOutOfRange(ws + [word], verticesCount)
  {
    assert (ws + [word])[..|ws|] == ws;
    indices', outOfRange' := indices, outOfRange;
    var index := ScanInt(word);
    if index.Some? {
      if index.value.0 >= 0 && index.value.0 < verticesCount {
        indices' := indices + [index.value.0 as nat];
      } else {
        outOfRange' := true;
      }
    }
  }

  /** The Polygons case of the loop body, with its two `for` loops over the words. */
  method FaceLine(conv: Conv, p: Parser, line: string) returns (r: Outcome)
    requires p.state == Polygons
    ensures r == FaceStep(conv, p, line)
  {
    if IsCommentOrEmptyLine(line) {
      return Parsed(p);
    }
    var words := ExplodeString(line, WORD_SEPARATORS, []);
    assert words == Tokens(line, WORD_SEPARATORS);
    if |words| == 0 {
      return Parsed(p);
    }
    var scanned := ScanInt(words[0]);
    if scanned.None? {
      return Parsed(p);
    }
    var indicesCount: int := scanned.value.0;
    var q := p.(indicesCount := scanned.value.0);
    if !(|words| == 1 + indicesCount || |words| == 1 + indicesCount + 3 || |words| == 1 + indicesCount + 4) {
      return Parsed(q);
    }
    if indicesCount < 0 {
      return Thrown;
    }
    var q' := ReadPolygon(conv, q, words, indicesCount);
    r := Parsed(q');
  }

  /** The rest of the Polygons case once the word count fits: the index loop, the colour
      loop, and the polygon kept, coloured or discarded. */
  method ReadPolygon(conv: Conv, q: Parser, words: seq<string>, k: nat) returns (q': Parser)
    requires WordCountFits(|words|, k)
    ensures q' == AddPolygon(conv, q, words, k)
  {
    var nbColorChannels := |words| - (k + 1);
    var indices, outOfRange := ReadIndices(words, k, q.verticesCount);
    var vector4 := ReadChannels(conv, words, k, q.vector4);
    var polygons := q.polygons + [Polygon(indices, ZERO4)];
    var colorByFaces := q.colorByFaces;
    if |words| > 1 + k && !outOfRange {
      colorByFaces := true;
      if nbColorChannels == 3 {
        vector4 := vector4.(w := 1.0);
      }
      polygons := polygons[|polygons| - 1 := Polygon(indices, vector4)];
    }
    if |indices| != k && !outOfRange {
      polygons := polygons[..|polygons| - 1];
      assert polygons == q.polygons;
    }
    var state := q.state;
    if |polygons| == q.facesCount {
      state := Finished;
    }
    q' := q.(vector4 := vector4, colorByFaces := colorByFaces, polygons := polygons, state := state);
  }

  /** The index loop: the words after the count that name a vertex are kept, and any other
      word that `%d` reads is noted as out of range. */
  method ReadIndices(words: seq<string>, k: nat, verticesCount: Int32) returns (indices: seq<nat>, outOfRange: bool)
    requires 1 + k <= |words|
    ensures indices == KeptIndices(words[1..1 + k], verticesCount)
    ensures outOfRange == AnyOutOfRange(words[1..1 + k], verticesCount)
  {
    indices, outOfRange := [], false;
    for i := 1 to 1 + k
      invariant indices == KeptIndices(words[1..i], verticesCount)
      invariant outOfRange == AnyOutOfRange(words[1..i], verticesCount)
    {
      assert words[1..i + 1] == words[1..i] + [words[i]];
      indices, outOfRange := ReadIndex(words[i], verticesCount, words[1..i], indices, outOfRange);
    }
  }

  /** The colour loop: each colour word that `%f` reads sets its channel of `vector4`. */
  method ReadChannels(conv: Conv, words: seq<string>, k: nat, vector4: Vec4) returns (vector4': Vec4)
    requires 1 + k <= |words| <= 1 + k + 4
    ensures vector4' == SetChannels(conv, words[1 + k..], vector4)
  {
    vector4' := vector4;
    for i := 1 + k to |words|
      invariant vector4' == SetChannels(conv, words[1 + k..i], vector4)
    {
      assert words[1 + k..i + 1][..i - (1 + k)] == words[1 + k..i];
      var fs := conv.scanFloats(words[i]);
      if |fs| > 0 {
        vector4' := WithComponent(vector4', i - (1 + k), fs[0]);
      }
    }
    assert words[1 + k..|words|] == words[1 + k..];
  }

  /** The `switch (state)` for one line. */
  method ParseLine(conv: Conv, p: Parser, line: string) returns (r: Outcome)
    ensures r == Step(conv, p, line)
  {
    match p.state
    case MagicNumber => r := MagicStep(p, line);
    case Counters => r := CountersStep(p, line);
    case Vertices => r := Parsed(VertexStep(conv, p, line));
    case Polygons => r := FaceLine(conv, p, line);
    case Finished => r := Parsed(p);
  }

  /** The `for` loop over the lines; a `std::length_error` leaves it at once. */
  method ParseLines(conv: Conv, lines: seq<string>) returns (r: Outcome)
    ensures r == ParseAll(conv, lines)
    ensures r.Parsed? ==> Consistent(r.p)
  {
    var p := PARSER_START;
    for i := 0 to |lines|
      invariant ParseAll(conv, lines[..i]) == Parsed(p)
    {
      assert lines[..i + 1][..i] == lines[..i];
      var o := ParseLine(conv, p, lines[i]);
      if o.Thrown? {
        ThrownStays(conv, lines, i + 1);
        return Thrown;
      }
      p := o.p;
    }
    assert lines[..|lines|] == lines;
    r := Parsed(p);
    ParseAllConsistent(conv, lines);
  }

  // ---------------------------------------------------------------- flattening

  /** `DrawArrays(GL_POLYGON, first, count)`. */
  datatype DrawArrays = DrawArrays(first: nat, count: nat)

  /** The geometry `readNode` builds before tessellation: the vertex array, the colour array
      with whether it is bound (per vertex), and the primitive sets. */
  datatype Geometry = Geometry(vertices: seq<Vec3>, colors: seq<Vec4>, colorBound: bool,
                               primitives: seq<DrawArrays>)

  /** The total number of indices of `polys`. */
  function IndexTotal(polys: seq<Polygon>): nat
    decreases |polys|
  {
    if polys == [] then 0 else IndexTotal(polys[..|polys| - 1]) + |polys[|polys| - 1].indices|
  }

  /** The primitive sets of `polys`: each starts where the previous one ended. */
  function DrawArraysOf(polys: seq<Polygon>): (r: seq<DrawArrays>)
    ensures |r| == |polys|
    decreases |polys|
  {
    if polys == [] then []
    else
      var init := polys[..|polys| - 1];
      DrawArraysOf(init) + [DrawArrays(IndexTotal(init), |polys[|polys| - 1].indices|)]
  }

  /** Polygon i's primitive starts at the number of indices before it and covers its own. */
  lemma {:induction false} DrawArraysAt(polys: seq<Polygon>, i: nat)
    requires i < |polys|
    ensures DrawArraysOf(polys)[i] == DrawArrays(IndexTotal(polys[..i]), |polys[i].indices|)
    decreases |polys|
  {
    var n := |polys| - 1;
    if i < n {
      var init := polys[..n];
      assert init[..i] == polys[..i] && init[i] == polys[i];
      DrawArraysAt(init, i);
    }
  }

  /** `xs[i]` for every index `i` of `idx`. */
  function Gather<T>(xs: seq<T>, idx: seq<nat>): (r: seq<T>)
    requires forall j :: 0 <= j < |idx| ==> idx[j] < |xs|
    ensures |r| == |idx| && forall j :: 0 <= j < |idx| ==> r[j] == xs[idx[j]]
  {
    seq(|idx|, j requires 0 <= j < |idx| => xs[idx[j]])
  }

  /** The colours one polygon contributes: its vertices' colours when the file gave vertex
      colours, else its own colour once per vertex when some face had a colour, else none. */
  function PolygonColors(sharedColors: seq<Vec4>, colorByFaces: bool, poly: Polygon): (r: seq<Vec4>)
    requires |sharedColors| > 0 ==> forall j :: 0 <= j < |poly.indices| ==> poly.indices[j] < |sharedColors|
    ensures |r| == if |sharedColors| > 0 || colorByFaces then |poly.indices| else 0
  {
    if |sharedColors| > 0 then Gather(sharedColors, poly.indices)
    else if colorByFaces then seq(|poly.indices|, _ => poly.color)
    else []
  }

  /** The vertex array: the polygons' vertices one polygon after the other. */
  function FlatVertices(sharedVertices: seq<Vec3>, polys: seq<Polygon>): (r: seq<Vec3>)
    requires IndicesBelow(polys, |sharedVertices|)
    ensures |r| == IndexTotal(polys)
    decreases |polys|
  {
    if polys == [] then []
    else FlatVertices(sharedVertices, polys[..|polys| - 1]) + Gather(sharedVertices, polys[|polys| - 1].indices)
  }

  /** The colour array, in the same order. */
  function FlatColors(sharedColors: seq<Vec4>, colorByFaces: bool, polys: seq<Polygon>): (r: seq<Vec4>)
    requires |sharedColors| > 0 ==> IndicesBelow(polys, |sharedColors|)
    ensures |r| == if |sharedColors| > 0 || colorByFaces then IndexTotal(polys) else 0
    decreases |polys|
  {
    if polys == [] then []
    else FlatColors(sharedColors, colorByFaces, polys[..|polys| - 1]) +
         PolygonColors(sharedColors, colorByFaces, polys[|polys| - 1])
  }

  lemma IndicesBelowPrefix(polys: seq<Polygon>, n: int, k: nat)
    requires IndicesBelow(polys, n) && k <= |polys|
    ensures IndicesBelow(polys[..k], n)
  {
    forall a, b | 0 <= a < k && 0 <= b < |polys[..k][a].indices|
      ensures polys[..k][a].indices[b] < n
    {
      assert polys[..k][a] == polys[a];
    }
  }

  /** One more polygon: its indices and its vertices and colours come after those before it. */
  lemma FlatSnoc(sharedVertices: seq<Vec3>, sharedColors: seq<Vec4>, colorByFaces: bool, polys: seq<Polygon>, i: nat)
    requires IndicesBelow(polys, |sharedVertices|) && i < |polys|
    requires |sharedColors| == 0 || |sharedColors| == |sharedVertices|
    ensures IndicesBelow(polys[..i], |sharedVertices|) && IndicesBelow(polys[..i + 1], |sharedVertices|)
    ensures IndexTotal(polys[..i + 1]) == IndexTotal(polys[..i]) + |polys[i].indices|
    ensures FlatVertices(sharedVertices, polys[..i + 1]) ==
      FlatVertices(sharedVertices, polys[..i]) + Gather(sharedVertices, polys[i].indices)
    ensures FlatColors(sharedColors, colorByFaces, polys[..i + 1]) ==
      FlatColors(sharedColors, colorByFaces, polys[..i]) + PolygonColors(sharedColors, colorByFaces, polys[i])
    ensures DrawArraysOf(polys[..i + 1]) ==
      DrawArraysOf(polys[..i]) + [DrawArrays(IndexTotal(polys[..i]), |polys[i].indices|)]
  {
    IndicesBelowPrefix(polys, |sharedVertices|, i);
    IndicesBelowPrefix(polys, |sharedVertices|, i + 1);
    assert polys[..i + 1][..i] == polys[..i] && polys[..i + 1][i] == polys[i];
  }

  /** The inner `for (size_t index : polygon.indices)` loop. */
  method AppendPolygon(sharedVertices: seq<Vec3>, sharedColors: seq<Vec4>, colorByFaces: bool,
                       poly: Polygon, vertices: seq<Vec3>, colors: seq<Vec4>)
    returns (vertices': seq<Vec3>, colors': seq<Vec4>)
    requires forall j :: 0 <= j < |poly.indices| ==> poly.indices[j] < |sharedVertices|
    requires |sharedColors| == 0 || |sharedColors| == |sharedVertices|
    ensures vertices' == vertices + Gather(sharedVertices, poly.indices)
    ensures colors' == colors + PolygonColors(sharedColors, colorByFaces, poly)
  {
    vertices', colors' := vertices, colors;
    for j := 0 to |poly.indices|
      invariant vertices' == vertices + Gather(sharedVertices, poly.indices[..j])
      invariant colors' == colors + PolygonColors(sharedColors, colorByFaces, Polygon(poly.indices[..j], poly.color))
    {
      var index := poly.indices[j];
      assert poly.indices[..j + 1] == poly.indices[..j] + [index];
      vertices' := vertices' + [sharedVertices[index]];
      if |sharedColors| > 0 {
        colors' := colors' + [sharedColors[index]];
      } else if colorByFaces {
        colors' := colors' + [poly.color];
      }
    }
    assert poly.indices[..|poly.indices|] == poly.indices;
  }

  /** The flattening loop: polygon i becomes a `DrawArrays` that starts at the number of
      indices of the polygons before it and covers its own indices. */
  method FlattenPolygons(sharedVertices: seq<Vec3>, sharedColors: seq<Vec4>, colorByFaces: bool,
                         polys: seq<Polygon>) returns (g: Geometry)
    requires IndicesBelow(polys, |sharedVertices|)
    requires |sharedColors| == 0 || |sharedColors| == |sharedVertices|
    ensures g.vertices == FlatVertices(sharedVertices, polys)
    ensures g.colors == FlatColors(sharedColors, colorByFaces, polys)
    ensures g.colorBound <==> |sharedColors| > 0 || colorByFaces
    ensures g.primitives == DrawArraysOf(polys)
  {
    var hasColor := |sharedColors| > 0 || colorByFaces;
    var vertices: seq<Vec3> := [];
    var colors: seq<Vec4> := [];
    var primitives: seq<DrawArrays> := [];
    var startPos: nat := 0;
    for i := 0 to |polys|
      invariant startPos == IndexTotal(polys[..i])
      invariant vertices == FlatVertices(sharedVertices, polys[..i])
      invariant colors == FlatColors(sharedColors, colorByFaces, polys[..i])
      invariant primitives == DrawArraysOf(polys[..i])
    {
      FlatSnoc(sharedVertices, sharedColors, colorByFaces, polys, i);
      vertices, colors := AppendPolygon(sharedVertices, sharedColors, colorByFaces, polys[i], vertices, colors);
      primitives := primitives + [DrawArrays(startPos, |polys[i].indices|)];
      startPos := startPos + |polys[i].indices|;
    }
    assert polys[..|polys|] == polys;
    g := Geometry(vertices, colors, hasColor, primitives);
  }

  /** Where polygon i's vertices land: vertex j of polygon i is at `IndexTotal(polys[..i]) + j`
      of the vertex array, and the array holds exactly the indices of all the polygons. */
  lemma {:induction false} FlatVertexAt(sharedVertices: seq<Vec3>, polys: seq<Polygon>, i: nat, j: nat)
    requires IndicesBelow(polys, |sharedVertices|) && i < |polys| && j < |polys[i].indices|
    ensures IndexTotal(polys[..i]) + j < IndexTotal(polys)
    ensures FlatVertices(sharedVertices, polys)[IndexTotal(polys[..i]) + j] == sharedVertices[polys[i].indices[j]]
    decreases |polys|
  {
    var n := |polys| - 1;
    var init := polys[..n];
    IndicesBelowPrefix(polys, |sharedVertices|, n);
    var pre := FlatVertices(sharedVertices, init);
    var last := Gather(sharedVertices, polys[n].indices);
    assert FlatVertices(sharedVertices, polys) == pre + last;
    if i < n {
      assert init[..i] == polys[..i] && init[i] == polys[i];
      FlatVertexAt(sharedVertices, init, i, j);
      assert (pre + last)[IndexTotal(polys[..i]) + j] == pre[IndexTotal(polys[..i]) + j];
    } else {
      assert polys[..i] == init;
      assert (pre + last)[|pre| + j] == last[j];
    }
  }


  /** The colours land at the same places: vertex j of polygon i gets the colour of its vertex
      when the file gave vertex colours, else the polygon's colour when faces had colours. */
  lemma {:induction false} FlatColorAt(sharedColors: seq<Vec4>, colorByFaces: bool, polys: seq<Polygon>, i: nat, j: nat)
    requires |sharedColors| > 0 ==> IndicesBelow(polys, |sharedColors|)
    requires (|sharedColors| > 0 || colorByFaces) && i < |polys| && j < |polys[i].indices|
    ensures IndexTotal(polys[..i]) + j < IndexTotal(polys)
    ensures FlatColors(sharedColors, colorByFaces, polys)[IndexTotal(polys[..i]) + j] ==
      if |sharedColors| > 0 then sharedColors[polys[i].indices[j]] else polys[i].color
    decreases |polys|
  {
    var n := |polys| - 1;
    var init := polys[..n];
    if |sharedColors| > 0 {
      IndicesBelowPrefix(polys, |sharedColors|, n);
    }
    var pre := FlatColors(sharedColors, colorByFaces, init);
    var last := PolygonColors(sharedColors, colorByFaces, polys[n]);
    assert FlatColors(sharedColors, colorByFaces, polys) == pre + last;
    if i < n {
      assert init[..i] == polys[..i] && init[i] == polys[i];
      FlatColorAt(sharedColors, colorByFaces, init, i, j);
      assert (pre + last)[IndexTotal(polys[..i]) + j] == pre[IndexTotal(polys[..i]) + j];
    } else {
      assert polys[..i] == init;
      assert (pre + last)[|pre| + j] == last[j];
    }
  }


  // ---------------------------------------------------------------- readNode

  datatype ReadResult = FileNotHandled | ErrorInReadingFile | LengthError | Loaded(geometry: Geometry)

  /** What `readNode` makes of the lines: a length error when parsing threw, a reading error
      unless the reader finished, else the flattened polygons: every polygon indexes shared
      vertices (and shared colours, when there are any), the vertex and colour arrays are
      the polygons' vertices and colours laid end to end, and each polygon is one primitive. */
  ghost predicate Interprets(conv: Conv, lines: seq<string>, r: ReadResult)
  {
    r != FileNotHandled &&
    (r == LengthError <==> ParseAll(conv, lines).Thrown?) &&
    (r == ErrorInReadingFile <==>
      ParseAll(conv, lines).Parsed? && ParseAll(conv, lines).p.state != Finished) &&
    (r.Loaded? ==> var p := ParseAll(conv, lines).p;
      p.state == Finished && |r.geometry.primitives| == |p.polygons| == p.facesCount &&
      IndicesBelow(p.polygons, |p.sharedVertices|) &&
      r.geometry.vertices == FlatVertices(p.sharedVertices, p.polygons) &&
      (r.geometry.colorBound <==> |p.sharedColors| > 0 || p.colorByFaces) &&
      (|p.sharedColors| > 0 ==> IndicesBelow(p.polygons, |p.sharedColors|)) &&
      r.geometry.colors == FlatColors(p.sharedColors, p.colorByFaces, p.polygons) &&
      r.geometry.primitives == DrawArraysOf(p.polygons))
  }

  /** The interpretation of the lines once they are read. */
  method Interpret(conv: Conv, lines: seq<string>) returns (r: ReadResult)
    ensures Interprets(conv, lines, r)
  {
    var o := ParseLines(conv, lines);
    if o.Thrown? {
      return LengthError;
    }
    var p := o.p;
    if p.state != Finished {
      return ErrorInReadingFile;
    }
    var g := FlattenPolygons(p.sharedVertices, p.sharedColors, p.colorByFaces, p.polygons);
    r := Loaded(g);
  }

  /** `readNode(std::istream&)`: a stream that is not good is not handled; otherwise its
      lines, as `readLines` cuts them, are read and interpreted. A loaded geometry has one primitive per polygon, laid
      end to end over the vertex array. */
  method ReadNode(conv: Conv, input: string, good: bool) returns (r: ReadResult)
    ensures !good ==> r == FileNotHandled
    ensures good ==> r != FileNotHandled
    ensures good ==> Interprets(conv, StreamLines("", input), r)
    ensures r.Loaded? ==> |r.geometry.primitives| == 0 || r.geometry.primitives[0].first == 0
  {
    if !good {
      return FileNotHandled;
    }
    var lines := ReadLines(input);
    r := Interpret(conv, lines);
    if r.Loaded? && |r.geometry.primitives| > 0 {
      var polys := ParseAll(conv, lines).p.polygons;
      DrawArraysAt(polys, 0);
      assert polys[..0] == [];
    }
  }
}
