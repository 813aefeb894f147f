/** The file-level state machine of `off::Model::readOFF` (off.cpp) as a function of the lines
    `readline` hands it, and the lines `writeOFF` produces: what is read back from them. */
module OffScan {
  import opened Common
  import opened OffTypes
  import opened OffLine
  import opened OffText

  datatype FileState = FsFileDescription | FsNDimension | FsVertexsAndFacesNumber
                     | FsVertexsList | FsFacesList | FsExit

  /** Everything `readOFF` keeps between two lines: its locals and the model's fields.
      `stopped` records that it has returned false. */
  datatype Scan = Scan(
    fileState: FileState,
    stopped: bool,
    isBinary: bool,
    flags: Descriptor,
    nbDim: nat,
    numDim: nat,
    nbVertices: nat,
    nbFaces: nat,
    verticeIndex: nat,
    faceIndex: nat,
    vertices: seq<Vertex>,
    faces: seq<Face>,
    haveFaceColors: bool)

  const NO_FLAGS := Descriptor(false, false, false, false, false)

  /** The state right after `init()`: empty arrays, no flags, dimension 3. */
  const START := Scan(FsFileDescription, false, false, NO_FLAGS, 3, 3, 0, 0, 0, 0, [], [], false)

  /** A face is usable against `n` vertices: at least three indices, all of them below `n`. */
  predicate ValidFace(f: Face, n: nat)
  {
    |f.indices| >= 3 && forall j :: 0 <= j < |f.indices| ==> f.indices[j] < n
  }

  /** What holds of every state the reader reaches: a dimension the vertex machine accepts,
      and a binary descriptor only together with the early return. */
  predicate Sane(s: Scan)
  {
    1 <= s.nbDim <= 4 && (s.isBinary ==> s.stopped)
  }

  /** Every face read so far is usable against the vertices read so far. */
  predicate FacesValid(s: Scan)
  {
    forall i :: 0 <= i < |s.faces| ==> ValidFace(s.faces[i], |s.vertices|)
  }

  /** One line keeps what was read and adds at most one vertex and one face. */
  predicate Appends(s: Scan, r: Scan)
  {
    s.vertices <= r.vertices && |r.vertices| <= |s.vertices| + 1 &&
    s.faces <= r.faces && |r.faces| <= |s.faces| + 1
  }

  /** The layout of the vertex lines under the flags read so far. */
  function LayoutOf(s: Scan): (l: Layout)
    requires Sane(s)
    ensures ValidLayout(l)
  {
    Layout(s.nbDim, s.flags.is4, s.flags.normals, s.flags.colors, s.flags.texcoords)
  }

  /** The descriptor line: "BINARY" leaves the file to the binary reader, a line not ending
      in "OFF" is an error; otherwise the flags are set and the dimension line or the counts
      line comes next. */
  function DescriptionStep(s: Scan, str: string): (r: Scan)
    requires Sane(s) && s.fileState == FsFileDescription
    ensures Sane(r)
    ensures r.stopped <==> s.stopped || !ParseTextHeader(str).TextHeader?
    ensures r.isBinary <==> s.isBinary || ParseTextHeader(str).BinaryHeader?
    ensures ParseTextHeader(str).TextHeader? ==>
              r.flags == ParseTextHeader(str).d &&
              r.fileState == (if r.flags.nDim then FsNDimension else FsVertexsAndFacesNumber)
    ensures r.vertices == s.vertices && r.faces == s.faces
  {
    match ParseTextHeader(str)
    case BinaryHeader => s.(isBinary := true, stopped := true)
    case NotOff => s.(stopped := true)
    case TextHeader(d) =>
      s.(flags := d, nbDim := if d.is4 then 4 else s.nbDim,
         fileState := if d.nDim then FsNDimension else FsVertexsAndFacesNumber)
  }

  /** The dimension line of "nOFF". */
  function NDimensionStep(conv: Conv, s: Scan, str: string): (r: Scan)
    requires Sane(s) && s.fileState == FsNDimension
    ensures Sane(r)
    ensures r.stopped <==> s.stopped || ParseNDim(conv, str, s.flags.is4).None?
    ensures ParseNDim(conv, str, s.flags.is4).Some? ==>
              r.nbDim == ParseNDim(conv, str, s.flags.is4).value && r.fileState == FsVertexsAndFacesNumber
    ensures r.vertices == s.vertices && r.faces == s.faces
  {
    match ParseNDim(conv, str, s.flags.is4)
    case None => s.(stopped := true)
    case Some(n) => s.(nbDim := n, numDim := n, fileState := FsVertexsAndFacesNumber)
  }

  /** The counts line. */
  function CountsStep(conv: Conv, s: Scan, str: string): (r: Scan)
    requires Sane(s) && s.fileState == FsVertexsAndFacesNumber
    ensures Sane(r)
    ensures r.stopped <==> s.stopped || |Tokens(str, " ")| < 2
    ensures |Tokens(str, " ")| >= 2 ==> r.fileState == FsVertexsList
    ensures r.vertices == s.vertices && r.faces == s.faces
  {
    match ParseCounts(conv, str)
    case None => s.(stopped := true)
    case Some(counts) =>
      s.(nbVertices := counts.0, nbFaces := counts.1, fileState := FsVertexsList)
  }

  /** A vertex line: without vertices to read the reader moves to the end; otherwise the
      line's numbers make one more vertex, and the faces follow after the last one. */
  function VertexLineStep(conv: Conv, s: Scan, str: string): (r: Scan)
    requires Sane(s) && s.fileState == FsVertexsList
    ensures Sane(r)
    ensures s.vertices <= r.vertices && |r.vertices| == |s.vertices| + (if s.nbVertices == 0 then 0 else 1)
    ensures r.faces == s.faces && r.stopped == s.stopped
    ensures r.fileState == FsFacesList <==> s.nbVertices != 0 && s.verticeIndex + 1 >= s.nbVertices
  {
    if s.nbVertices == 0 then s.(fileState := FsExit)
    else
      var v := VertexOf(LayoutOf(s), ParseAll(conv, NumbersOnly(conv, Tokens(str, " "))), true);
      var r := s.(vertices := s.vertices + [v], verticeIndex := s.verticeIndex + 1);
      if r.verticeIndex >= s.nbVertices then r.(fileState := FsFacesList) else r
  }

  /** A vertex line with vertices still to read, once the vertex it makes is known. */
  lemma VertexLineStepOf(conv: Conv, s: Scan, str: string, v: Vertex)
    requires Sane(s) && s.fileState == FsVertexsList && s.nbVertices != 0
    requires v == VertexOf(LayoutOf(s), ParseAll(conv, NumbersOnly(conv, Tokens(str, " "))), true)
    ensures VertexLineStep(conv, s, str) ==
            s.(vertices := s.vertices + [v], verticeIndex := s.verticeIndex + 1,
               fileState := if s.verticeIndex + 1 >= s.nbVertices then FsFacesList else FsVertexsList)
  {
  }

  /** A face line: without faces to read (or vertices to index) the reader moves to the end;
      otherwise the line may add a face, and the reader stops after the announced count. */
  function FaceLineStep(conv: Conv, s: Scan, str: string): (r: Scan)
    requires Sane(s) && s.fileState == FsFacesList
    ensures Sane(r)
    ensures r.vertices == s.vertices && s.faces <= r.faces && |r.faces| <= |s.faces| + 1
    ensures r.stopped == s.stopped
    ensures r.fileState == FsExit <==> s.nbFaces == 0 || |s.vertices| == 0 || s.faceIndex + 1 >= s.nbFaces
  {
    if s.nbFaces == 0 || |s.vertices| == 0 then s.(fileState := FsExit)
    else
      var fr := FaceOf(conv, NumbersOnly(conv, Tokens(str, " ")), |s.vertices|);
      var faces := s.faces + (if fr.face.Some? then [fr.face.value] else []);
      var r := s.(faces := faces, haveFaceColors := s.haveFaceColors || fr.faceColors,
                  faceIndex := s.faceIndex + 1);
      if r.faceIndex >= s.nbFaces then r.(fileState := FsExit) else r
  }

  /** A face line read against vertices, once the face it makes is known. */
  lemma FaceLineStepOf(conv: Conv, s: Scan, str: string, fr: FaceRead)
    requires Sane(s) && s.fileState == FsFacesList && s.nbFaces != 0 && |s.vertices| != 0
    requires fr == FaceOf(conv, NumbersOnly(conv, Tokens(str, " ")), |s.vertices|)
    ensures FaceLineStep(conv, s, str) ==
            s.(faces := s.faces + (if fr.face.Some? then [fr.face.value] else []),
               haveFaceColors := s.haveFaceColors || fr.faceColors, faceIndex := s.faceIndex + 1,
               fileState := if s.faceIndex + 1 >= s.nbFaces then FsExit else FsFacesList)
  {
  }

  /** What a non-blank cleaned line does in the current state. */
  function LineStep(conv: Conv, s: Scan, str: string): (r: Scan)
    requires Sane(s)
    ensures Sane(r)
    ensures Appends(s, r) && (s.stopped ==> r.stopped)
    ensures s.fileState == FsExit ==> r == s
  {
    match s.fileState
    case FsFileDescription => DescriptionStep(s, str)
    case FsNDimension => NDimensionStep(conv, s, str)
    case FsVertexsAndFacesNumber => CountsStep(conv, s, str)
    case FsVertexsList => VertexLineStep(conv, s, str)
    case FsFacesList => FaceLineStep(conv, s, str)
    case FsExit => s
  }

  /** One line read by `readline`: its comment is cut, its ends trimmed; a blank line, an
      earlier return and the end state change nothing. */
  function TextStep(conv: Conv, s: Scan, buffer: string): (r: Scan)
    requires Sane(s)
    ensures Sane(r)
    ensures Appends(s, r) && (s.stopped ==> r == s)
  {
    var str := CleanLine(buffer);
    if s.stopped || str == [] then s else LineStep(conv, s, str)
  }

  /** The state after the lines read so far, starting from `s`. */
  function RunText(conv: Conv, s: Scan, lines: seq<string>): (r: Scan)
    requires Sane(s)
    ensures Sane(r)
    ensures s.vertices <= r.vertices && s.faces <= r.faces && (s.stopped ==> r == s)
    ensures |r.vertices| <= |s.vertices| + |lines| && |r.faces| <= |s.faces| + |lines|
    decreases |lines|
  {
    if lines == [] then s else RunText(conv, TextStep(conv, s, lines[0]), lines[1..])
  }

  /** `readOFF` returns true: it did not return early and found vertices and faces. */
  predicate Accepted(s: Scan)
  {
    !s.stopped && |s.vertices| > 0 && |s.faces| > 0
  }

  /** Each step keeps the faces usable: vertices are only added, and a face is added only
      when it has three indices below the vertex count. */
  lemma StepKeepsFacesValid(conv: Conv, s: Scan, buffer: string)
    requires Sane(s) && FacesValid(s)
    ensures FacesValid(TextStep(conv, s, buffer))
  {
    var str := CleanLine(buffer);
    if !s.stopped && str != [] {
      assert TextStep(conv, s, buffer) == LineStep(conv, s, str);
      match s.fileState
      case FsVertexsList => VertexLineKeepsFaces(conv, s, str);
      case FsFacesList => FaceLineKeepsFaces(conv, s, str);
      case _ =>
    }
  }

  lemma VertexLineKeepsFaces(conv: Conv, s: Scan, str: string)
    requires Sane(s) && s.fileState == FsVertexsList && FacesValid(s)
    ensures FacesValid(VertexLineStep(conv, s, str))
  {
    var r := VertexLineStep(conv, s, str);
    assert |r.vertices| >= |s.vertices| && r.faces == s.faces;
  }

  lemma FaceLineKeepsFaces(conv: Conv, s: Scan, str: string)
    requires Sane(s) && s.fileState == FsFacesList && FacesValid(s)
    ensures FacesValid(FaceLineStep(conv, s, str))
  {
    if s.nbFaces != 0 && |s.vertices| != 0 {
      var r := FaceLineStep(conv, s, str);
      var fr := FaceOf(conv, NumbersOnly(conv, Tokens(str, " ")), |s.vertices|);
      assert r.faces == s.faces + (if fr.face.Some? then [fr.face.value] else []);
      assert r.vertices == s.vertices;
    }
  }

  /** Whatever the lines, the reader only keeps usable faces. */
  lemma {:induction false} RunKeepsFacesValid(conv: Conv, s: Scan, lines: seq<string>)
    requires Sane(s) && FacesValid(s)
    ensures FacesValid(RunText(conv, s, lines))
    decreases |lines|
  {
    if lines != [] {
      StepKeepsFacesValid(conv, s, lines[0]);
      RunKeepsFacesValid(conv, TextStep(conv, s, lines[0]), lines[1..]);
    }
  }

  /** Reading one more line is one more step. */
  lemma {:induction false} RunTextSnoc(conv: Conv, s: Scan, lines: seq<string>, line: string)
    requires Sane(s)
    ensures RunText(conv, s, lines + [line]) == TextStep(conv, RunText(conv, s, lines), line)
    decreases |lines|
  {
    if lines == [] {
      assert ([] + [line])[1..] == [];
    } else {
      assert (lines + [line])[1..] == lines[1..] + [line];
      RunTextSnoc(conv, TextStep(conv, s, lines[0]), lines[1..], line);
    }
  }

  /** Reading two runs of lines one after the other. */
  lemma {:induction false} RunTextAppend(conv: Conv, s: Scan, a: seq<string>, b: seq<string>)
    requires Sane(s)
    ensures RunText(conv, s, a + b) == RunText(conv, RunText(conv, s, a), b)
    decreases |a|
  {
    if a != [] {
      assert (a + b)[1..] == a[1..] + b;
      RunTextAppend(conv, TextStep(conv, s, a[0]), a[1..], b);
    } else {
      assert a + b == b;
    }
  }

  // ---------------------------------------------------------------- what `writeOFF` writes

  /** What the OFF formats carry of a model: the arrays and the four flags. */
  datatype Mesh = Mesh(vertices: seq<Vertex>, faces: seq<Face>,
                       texcoords: bool, colors: bool, normals: bool, faceColors: bool)

  /** The descriptor the writers emit for a mesh: its flags, never "4" or "n". */
  function WriterDescriptor(m: Mesh): (d: Descriptor)
    ensures Writable(d)
  {
    Descriptor(m.texcoords, m.colors, m.normals, false, false)
  }

  function VertexLines(conv: Conv, vs: seq<Vertex>, d: Descriptor): (ls: seq<string>)
    ensures |ls| == |vs| && forall i :: 0 <= i < |vs| ==> ls[i] == VertexLine(conv, vs[i], d)
  {
    seq(|vs|, i requires 0 <= i < |vs| => VertexLine(conv, vs[i], d))
  }

  function FaceLines(conv: Conv, fs: seq<Face>, faceColors: bool): (ls: seq<string>)
    ensures |ls| == |fs| && forall i :: 0 <= i < |fs| ==> ls[i] == FaceLine(conv, fs[i], faceColors)
  {
    seq(|fs|, i requires 0 <= i < |fs| => FaceLine(conv, fs[i], faceColors))
  }

  /** The lines of a file `writeOFF` writes: the comment, the descriptor, the counts, one line
      per vertex, one line per face. */
  function WrittenLines(conv: Conv, m: Mesh): (ls: seq<string>)
    ensures |ls| == 3 + |m.vertices| + |m.faces|
    ensures forall i :: 0 <= i < |m.vertices| ==> ls[3 + i] == VertexLine(conv, m.vertices[i], WriterDescriptor(m))
    ensures forall i :: 0 <= i < |m.faces| ==> ls[3 + |m.vertices| + i] == FaceLine(conv, m.faces[i], m.faceColors)
  {
    [WRITER_COMMENT, DescriptorText(WriterDescriptor(m)), CountsText(|m.vertices|, |m.faces|)] +
    VertexLines(conv, m.vertices, WriterDescriptor(m)) + FaceLines(conv, m.faces, m.faceColors)
  }

  /** The mesh the reader's state holds. */
  function MeshOf(s: Scan): Mesh
  {
    Mesh(s.vertices, s.faces, s.flags.texcoords, s.flags.colors, s.flags.normals, s.haveFaceColors)
  }

  /** Vertices the text format carries without loss: every vertex is described completely
      by its line and its values print exactly. */
  predicate VerticesSurvive(conv: Conv, vs: seq<Vertex>, d: Descriptor)
  {
    forall i :: 0 <= i < |vs| ==>
      (Representable(vs[i], d) &&
       forall j :: 0 <= j < |VertexValues(vs[i], d)| ==> PrintsExactly(conv, VertexValues(vs[i], d)[j]))
  }

  /** Faces the text format carries without loss against `nbVertices` vertices. */
  predicate FacesSurvive(conv: Conv, fs: seq<Face>, faceColors: bool, nbVertices: nat)
  {
    forall i :: 0 <= i < |fs| ==> FaceRepresentable(conv, fs[i], faceColors, nbVertices)
  }

  /** A mesh the text format carries without loss: both arrays non-empty with counts an `int`
      holds, and vertices and faces that survive their lines. */
  predicate SurvivesText(conv: Conv, m: Mesh)
  {
    0 < |m.vertices| <= INT32_LIMIT && 0 < |m.faces| < INT32_LIMIT &&
    VerticesSurvive(conv, m.vertices, WriterDescriptor(m)) &&
    FacesSurvive(conv, m.faces, m.faceColors, |m.vertices|)
  }

  /** The state after the first three lines of a written file. */
  function AfterCounts(m: Mesh): (s: Scan)
    ensures Sane(s)
  {
    START.(flags := WriterDescriptor(m), fileState := FsVertexsAndFacesNumber).(
      fileState := FsVertexsList, nbVertices := |m.vertices|, nbFaces := |m.faces|)
  }

  /** Reading the lines `writeOFF` writes gives the mesh back: the text reader accepts them
      and ends with the same vertices, faces and flags (the dimension stays 3). */
  lemma TextRoundTrip(conv: Conv, m: Mesh)
    requires ReadsBackIntegers(conv) && SurvivesText(conv, m)
    ensures Accepted(RunText(conv, START, WrittenLines(conv, m)))
    ensures MeshOf(RunText(conv, START, WrittenLines(conv, m))) == m
    ensures RunText(conv, START, WrittenLines(conv, m)).numDim == 3
  {
    var d := WriterDescriptor(m);
    var header := [WRITER_COMMENT, DescriptorText(d), CountsText(|m.vertices|, |m.faces|)];
    var vl := VertexLines(conv, m.vertices, d);
    var fl := FaceLines(conv, m.faces, m.faceColors);
    assert WrittenLines(conv, m) == header + vl + fl;
    RunTextAppend(conv, START, header + vl, fl);
    RunTextAppend(conv, START, header, vl);
    HeaderRead(conv, m);
    var s1 := AfterCounts(m);
    VerticesRead(conv, s1, m.vertices, d);
    var s2 := s1.(vertices := s1.vertices + m.vertices, verticeIndex := |m.vertices|, fileState := FsFacesList);
    FacesRead(conv, s2, m.faces, m.faceColors);
    assert s1.vertices + m.vertices == m.vertices;
    assert s2.faces + m.faces == m.faces;
  }

  /** Lines that take the reader from each state of `states` to the next one take it from the
      first to the last. */
  lemma {:induction false} RunThrough(conv: Conv, states: seq<Scan>, ls: seq<string>)
    requires |states| == |ls| + 1 && forall i :: 0 <= i < |states| ==> Sane(states[i])
    requires forall i :: 0 <= i < |ls| ==> TextStep(conv, states[i], ls[i]) == states[i + 1]
    ensures RunText(conv, states[0], ls) == states[|ls|]
    decreases |ls|
  {
    if ls != [] {
      RunThrough(conv, states[1..], ls[1..]);
    }
  }

  lemma HeaderRead(conv: Conv, m: Mesh)
    requires ReadsBackIntegers(conv) && 0 < |m.vertices| <= INT32_LIMIT && 0 < |m.faces| < INT32_LIMIT
    ensures RunText(conv, START, [WRITER_COMMENT, DescriptorText(WriterDescriptor(m)),
                                  CountsText(|m.vertices|, |m.faces|)]) == AfterCounts(m)
  {
    var d := WriterDescriptor(m);
    var s2 := START.(flags := d, fileState := FsVertexsAndFacesNumber);
    CommentRead(conv);
    DescriptorRead(conv, d);
    CountsRead(conv, s2, |m.vertices|, |m.faces|);
    RunThree(conv, START, START, s2, AfterCounts(m), WRITER_COMMENT, DescriptorText(d),
             CountsText(|m.vertices|, |m.faces|));
  }

  lemma RunThree(conv: Conv, s0: Scan, s1: Scan, s2: Scan, s3: Scan, a: string, b: string, c: string)
    requires Sane(s0) && Sane(s1) && Sane(s2)
    requires TextStep(conv, s0, a) == s1 && TextStep(conv, s1, b) == s2 && TextStep(conv, s2, c) == s3
    ensures RunText(conv, s0, [a, b, c]) == s3
  {
    RunOne(conv, s0, s1, a, [b, c]);
    RunOne(conv, s1, s2, b, [c]);
    RunOne(conv, s2, s3, c, []);
  }

  /** One line read, the rest of the run goes on from the state it leads to. */
  lemma RunOne(conv: Conv, s: Scan, t: Scan, line: string, rest: seq<string>)
    requires Sane(s) && TextStep(conv, s, line) == t
    ensures RunText(conv, s, [line] + rest) == RunText(conv, t, rest)
  {
    assert ([line] + rest)[1..] == rest;
  }

  lemma CommentRead(conv: Conv)
    ensures TextStep(conv, START, WRITER_COMMENT) == START
  {
    WriterCommentIsBlank();
  }

  lemma DescriptorRead(conv: Conv, d: Descriptor)
    requires Writable(d)
    ensures TextStep(conv, START, DescriptorText(d)) == START.(flags := d, fileState := FsVertexsAndFacesNumber)
  {
    DescriptorRoundTrip(d);
  }

  lemma CountsRead(conv: Conv, s: Scan, nv: nat, nf: nat)
    requires ReadsBackIntegers(conv) && nv < 0x1_0000_0000 && nf < 0x1_0000_0000
    requires Sane(s) && !s.stopped && s.fileState == FsVertexsAndFacesNumber
    ensures TextStep(conv, s, CountsText(nv, nf)) ==
            s.(nbVertices := nv, nbFaces := nf, fileState := FsVertexsList)
  {
    CountsRoundTrip(conv, nv, nf);
  }

  /** A written vertex line, read in the vertex state, appends its vertex. */
  lemma VertexLineRead(conv: Conv, s: Scan, v: Vertex, d: Descriptor)
    requires Sane(s) && !s.stopped && s.fileState == FsVertexsList && s.nbVertices > s.verticeIndex
    requires LayoutOf(s) == WriterLayout(d) && Representable(v, d)
    requires forall j :: 0 <= j < |VertexValues(v, d)| ==> PrintsExactly(conv, VertexValues(v, d)[j])
    ensures TextStep(conv, s, VertexLine(conv, v, d)) ==
            s.(vertices := s.vertices + [v], verticeIndex := s.verticeIndex + 1,
               fileState := if s.verticeIndex + 1 >= s.nbVertices then FsFacesList else FsVertexsList)
  {
    var line := VertexLine(conv, v, d);
    VertexLineRoundTrip(conv, v, d);
    assert CleanLine(line) == line != [];
    assert TextStep(conv, s, line) == VertexLineStep(conv, s, line);
    VertexLineStepOf(conv, s, line, v);
  }

  /** The states while reading the vertex lines of `vs` from `s`. */
  function VertexStates(s: Scan, vs: seq<Vertex>): (states: seq<Scan>)
    requires Sane(s)
    ensures |states| == |vs| + 1 && forall i :: 0 <= i < |states| ==> Sane(states[i])
  {
    seq(|vs| + 1, i requires 0 <= i <= |vs| =>
      s.(vertices := s.vertices + vs[..i], verticeIndex := s.verticeIndex + i,
         fileState := if i == |vs| then FsFacesList else FsVertexsList))
  }

  /** A run of written vertex lines, read in the vertex state with as many vertices still to
      come, appends the vertices and moves on to the faces. */
  lemma VerticesRead(conv: Conv, s: Scan, vs: seq<Vertex>, d: Descriptor)
    requires Sane(s) && !s.stopped && s.fileState == FsVertexsList && vs != []
    requires s.nbVertices == s.verticeIndex + |vs| && LayoutOf(s) == WriterLayout(d)
    requires VerticesSurvive(conv, vs, d)
    ensures RunText(conv, s, VertexLines(conv, vs, d)) ==
            s.(vertices := s.vertices + vs, verticeIndex := s.nbVertices, fileState := FsFacesList)
  {
    VertexStepsHold(conv, s, vs, d);
    VertexStatesEnds(s, vs);
    RunThrough(conv, VertexStates(s, vs), VertexLines(conv, vs, d));
  }

  lemma VertexStepsHold(conv: Conv, s: Scan, vs: seq<Vertex>, d: Descriptor)
    requires Sane(s) && !s.stopped && s.fileState == FsVertexsList
    requires s.nbVertices == s.verticeIndex + |vs| && LayoutOf(s) == WriterLayout(d)
    requires VerticesSurvive(conv, vs, d)
    ensures |VertexLines(conv, vs, d)| == |vs|
    ensures forall i :: 0 <= i < |vs| ==>
      TextStep(conv, VertexStates(s, vs)[i], VertexLines(conv, vs, d)[i]) == VertexStates(s, vs)[i + 1]
  {
    forall i | 0 <= i < |vs|
      ensures TextStep(conv, VertexStates(s, vs)[i], VertexLines(conv, vs, d)[i]) == VertexStates(s, vs)[i + 1]
    {
      VertexStepHolds(conv, s, vs, d, i);
    }
  }

  /** The run of vertex states starts at `s` and ends with every vertex appended. */
  lemma VertexStatesEnds(s: Scan, vs: seq<Vertex>)
    requires Sane(s) && s.fileState == FsVertexsList && vs != []
    ensures VertexStates(s, vs)[0] == s
    ensures VertexStates(s, vs)[|vs|] ==
            s.(vertices := s.vertices + vs, verticeIndex := s.verticeIndex + |vs|, fileState := FsFacesList)
  {
    assert s.vertices + vs[..0] == s.vertices;
    assert vs[..|vs|] == vs;
  }

  lemma VertexStepHolds(conv: Conv, s: Scan, vs: seq<Vertex>, d: Descriptor, i: nat)
    requires Sane(s) && !s.stopped && s.fileState == FsVertexsList && i < |vs|
    requires s.nbVertices == s.verticeIndex + |vs| && LayoutOf(s) == WriterLayout(d)
    requires VerticesSurvive(conv, vs, d)
    ensures TextStep(conv, VertexStates(s, vs)[i], VertexLines(conv, vs, d)[i]) == VertexStates(s, vs)[i + 1]
  {
    var t := VertexStates(s, vs)[i];
    VertexLineRead(conv, t, vs[i], d);
    VertexStatesNext(s, vs, i);
  }

  lemma VertexStatesNext(s: Scan, vs: seq<Vertex>, i: nat)
    requires Sane(s) && i < |vs|
    ensures var t := VertexStates(s, vs)[i];
            VertexStates(s, vs)[i + 1] ==
            t.(vertices := t.vertices + [vs[i]], verticeIndex := t.verticeIndex + 1,
               fileState := if i + 1 == |vs| then FsFacesList else FsVertexsList)
  {
    assert s.vertices + vs[..i] + [vs[i]] == s.vertices + vs[..i + 1] by {
      AppendAssoc(s.vertices, vs[..i], [vs[i]]);
      assert vs[..i] + [vs[i]] == vs[..i + 1];
    }
  }

  /** A written face line, read in the face state, appends its face. */
  lemma FaceLineRead(conv: Conv, s: Scan, f: Face, faceColors: bool)
    requires ReadsBackIntegers(conv)
    requires Sane(s) && !s.stopped && s.fileState == FsFacesList && s.nbFaces > s.faceIndex
    requires |s.vertices| > 0 && FaceRepresentable(conv, f, faceColors, |s.vertices|)
    ensures TextStep(conv, s, FaceLine(conv, f, faceColors)) ==
            s.(faces := s.faces + [f], haveFaceColors := s.haveFaceColors || faceColors,
               faceIndex := s.faceIndex + 1,
               fileState := if s.faceIndex + 1 >= s.nbFaces then FsExit else FsFacesList)
  {
    var line := FaceLine(conv, f, faceColors);
    FaceLineRoundTrip(conv, f, faceColors, |s.vertices|);
    assert CleanLine(line) == line != [];
    assert TextStep(conv, s, line) == FaceLineStep(conv, s, line);
    FaceLineStepOf(conv, s, line, FaceRead(Some(f), faceColors));
  }

  /** The states while reading the face lines of `fs` from `s`. */
  function FaceStates(s: Scan, fs: seq<Face>, faceColors: bool): (states: seq<Scan>)
    requires Sane(s)
    ensures |states| == |fs| + 1 && forall i :: 0 <= i < |states| ==> Sane(states[i])
  {
    seq(|fs| + 1, i requires 0 <= i <= |fs| =>
      s.(faces := s.faces + fs[..i], faceIndex := s.faceIndex + i,
         haveFaceColors := s.haveFaceColors || (faceColors && i > 0),
         fileState := if i == |fs| then FsExit else FsFacesList))
  }

  /** A run of written face lines, read in the face state with as many faces still to come,
      appends the faces and ends the reading. */
  lemma FacesRead(conv: Conv, s: Scan, fs: seq<Face>, faceColors: bool)
    requires ReadsBackIntegers(conv)
    requires Sane(s) && !s.stopped && s.fileState == FsFacesList && fs != [] && |s.vertices| > 0
    requires s.nbFaces == s.faceIndex + |fs| && !s.haveFaceColors
    requires FacesSurvive(conv, fs, faceColors, |s.vertices|)
    ensures RunText(conv, s, FaceLines(conv, fs, faceColors)) ==
            s.(faces := s.faces + fs, faceIndex := s.nbFaces, haveFaceColors := faceColors, fileState := FsExit)
  {
    FaceStepsHold(conv, s, fs, faceColors);
    FaceStatesEnds(s, fs, faceColors);
    RunThrough(conv, FaceStates(s, fs, faceColors), FaceLines(conv, fs, faceColors));
  }

  lemma FaceStepsHold(conv: Conv, s: Scan, fs: seq<Face>, faceColors: bool)
    requires ReadsBackIntegers(conv)
    requires Sane(s) && !s.stopped && s.fileState == FsFacesList && |s.vertices| > 0
    requires s.nbFaces == s.faceIndex + |fs| && !s.haveFaceColors
    requires FacesSurvive(conv, fs, faceColors, |s.vertices|)
    ensures |FaceLines(conv, fs, faceColors)| == |fs|
    ensures forall i :: 0 <= i < |fs| ==>
      TextStep(conv, FaceStates(s, fs, faceColors)[i], FaceLines(conv, fs, faceColors)[i]) ==
      FaceStates(s, fs, faceColors)[i + 1]
  {
    forall i | 0 <= i < |fs|
      ensures TextStep(conv, FaceStates(s, fs, faceColors)[i], FaceLines(conv, fs, faceColors)[i]) ==
              FaceStates(s, fs, faceColors)[i + 1]
    {
      FaceStepHolds(conv, s, fs, faceColors, i);
    }
  }

  /** The run of face states starts at `s` and ends with every face appended. */
  lemma FaceStatesEnds(s: Scan, fs: seq<Face>, faceColors: bool)
    requires Sane(s) && s.fileState == FsFacesList && fs != [] && !s.haveFaceColors
    ensures FaceStates(s, fs, faceColors)[0] == s
    ensures FaceStates(s, fs, faceColors)[|fs|] ==
            s.(faces := s.faces + fs, faceIndex := s.faceIndex + |fs|, haveFaceColors := faceColors, fileState := FsExit)
  {
    assert s.faces + fs[..0] == s.faces;
    assert fs[..|fs|] == fs;
  }

  lemma FaceStepHolds(conv: Conv, s: Scan, fs: seq<Face>, faceColors: bool, i: nat)
    requires ReadsBackIntegers(conv)
    requires Sane(s) && !s.stopped && s.fileState == FsFacesList && i < |fs| && |s.vertices| > 0
    requires s.nbFaces == s.faceIndex + |fs| && !s.haveFaceColors
    requires FacesSurvive(conv, fs, faceColors, |s.vertices|)
    ensures TextStep(conv, FaceStates(s, fs, faceColors)[i], FaceLines(conv, fs, faceColors)[i]) ==
            FaceStates(s, fs, faceColors)[i + 1]
  {
    var t := FaceStates(s, fs, faceColors)[i];
    FaceLineRead(conv, t, fs[i], faceColors);
    FaceStatesNext(s, fs, faceColors, i);
  }

  lemma FaceStatesNext(s: Scan, fs: seq<Face>, faceColors: bool, i: nat)
    requires Sane(s) && i < |fs|
    ensures var t := FaceStates(s, fs, faceColors)[i];
            FaceStates(s, fs, faceColors)[i + 1] ==
            t.(faces := t.faces + [fs[i]], haveFaceColors := t.haveFaceColors || faceColors,
               faceIndex := t.faceIndex + 1,
               fileState := if i + 1 == |fs| then FsExit else FsFacesList)
  {
    assert s.faces + fs[..i] + [fs[i]] == s.faces + fs[..i + 1] by {
      AppendAssoc(s.faces, fs[..i], [fs[i]]);
      assert fs[..i] + [fs[i]] == fs[..i + 1];
    }
  }
}
