/** `off::Model` (off.h, off.cpp): the vertex and face arrays of a Geomview OFF file, the
    attribute flags, and the operations that fill and write them: `init`, `merge`, `readOFF`
    and `writeOFF`. */
module Off {
  import opened Common
  import opened OffTypes
  import opened OffLine
  import opened OffText
  import opened OffScan
  import opened OffFile
  import opened OffBinary
  import opened OffBinaryWriter

  /** The locals of `readOFF` that live from one line to the next (`isBinary` is its
      out-parameter). */
  datatype ReadState = ReadState(fileState: FileState, isBinary: bool, is4Component: bool,
                                 isNDimensions: bool, nbDim: nat, nbVertices: nat, nbFaces: nat,
                                 verticeIndex: nat, faceIndex: nat)

  const READ_START := ReadState(FsFileDescription, false, false, false, 3, 0, 0, 0, 0)

  /** Before the descriptor line has been read no flag is set. */
  predicate Fresh(s: Scan)
  {
    s.fileState == FsFileDescription ==> s.flags == NO_FLAGS
  }

  /** No value occurs twice. */
  predicate Distinct<T(==)>(vs: seq<T>)
  {
    forall i, j :: 0 <= i < j < |vs| ==> vs[i] != vs[j]
  }

  class Model {
    var vertices: seq<Vertex>
    var faces: seq<Face>
    var databasePath: string
    var haveVertexColors: bool
    var haveVertexNormals: bool
    var haveVertexTextureCoordinates: bool
    var haveFaceColors: bool
    var numDim: nat

    /** The state `init` leaves: no vertex, no face, no path, no flag, three dimensions. */
    ghost predicate Initial()
      reads this
    {
      vertices == [] && faces == [] && databasePath == "" &&
      !haveVertexColors && !haveVertexNormals && !haveVertexTextureCoordinates &&
      !haveFaceColors && numDim == 3
    }

    constructor()
      ensures Initial()
    {
      vertices, faces, databasePath := [], [], "";
      haveVertexColors, haveVertexNormals, haveVertexTextureCoordinates, haveFaceColors := false, false, false, false;
      numDim := 3;
    }

    method Init()
      modifies this
      ensures Initial()
    {
      vertices, faces := [], [];
      databasePath := "";
      haveVertexColors, haveVertexNormals, haveVertexTextureCoordinates, haveFaceColors := false, false, false, false;
      numDim := 3;
    }

    /** What the OFF formats carry of the model. */
    function AsMesh(): Mesh
      reads this
    {
      Mesh(vertices, faces, haveVertexTextureCoordinates, haveVertexColors, haveVertexNormals, haveFaceColors)
    }

    /** The reader's state as the line machine of `OffScan` describes it: the locals `st`, the
        early return `stopped` and the model's fields. */
    ghost function Snapshot(st: ReadState, stopped: bool): Scan
      reads this
    {
      Scan(st.fileState, stopped, st.isBinary,
           Descriptor(haveVertexTextureCoordinates, haveVertexColors, haveVertexNormals,
                      st.is4Component, st.isNDimensions),
           st.nbDim, numDim, st.nbVertices, st.nbFaces, st.verticeIndex, st.faceIndex,
           vertices, faces, haveFaceColors)
    }

    // ---------------------------------------------------------------- merge

    /** `merge`: the index of the first stored vertex equal to `vertex`, which is appended
        when there is none. A model built by merging alone never stores a vertex twice. */
    method Merge(vertex: Vertex) returns (index: nat)
      modifies this
      ensures index <= |old(vertices)| && index < |vertices| && vertices[index] == vertex
      ensures index < |old(vertices)| ==>
        vertices == old(vertices) && forall j :: 0 <= j < index ==> vertices[j] != vertex
      ensures index == |old(vertices)| ==> vertices == old(vertices) + [vertex] && vertex !in old(vertices)
      ensures Distinct(old(vertices)) ==> Distinct(vertices)
      ensures faces == old(faces) && databasePath == old(databasePath) && numDim == old(numDim)
      ensures haveVertexColors == old(haveVertexColors) && haveVertexNormals == old(haveVertexNormals)
      ensures haveVertexTextureCoordinates == old(haveVertexTextureCoordinates)
      ensures haveFaceColors == old(haveFaceColors)
    {
      var nbVertex := |vertices|;
      for i := 0 to nbVertex
        invariant unchanged(this)
        invariant forall j :: 0 <= j < i ==> vertices[j] != vertex
      {
        SameVertexIsEquality(vertex, vertices[i]);
        if SameVertex(vertex, vertices[i]) {
          return i;
        }
      }
      vertices := vertices + [vertex];
      index := nbVertex;
    }

    // ---------------------------------------------------------------- readOFF, line by line

    /** The descriptor line: flags are only ever set, from none, in the order ST, C, N, 4, n. */
    method ReadDescriptionLine(st: ReadState, str: string) returns (st': ReadState, stop: bool)
      requires st.fileState == FsFileDescription && !st.isBinary && 1 <= st.nbDim <= 4
      requires Snapshot(st, false).flags == NO_FLAGS
      modifies this
      ensures Snapshot(st', stop) == DescriptionStep(old(Snapshot(st, false)), str)
      ensures databasePath == old(databasePath)
    {
      st', stop := st, false;
      if EndsWith(str, "BINARY") {
        st' := st'.(isBinary := true);
        return st', true;
      }
      if !EndsWith(str, "OFF") {
        return st', true;
      }
      ghost var d := Prefixes(str);
      assert ParseTextHeader(str) == TextHeader(d);
      var s := str;
      var texcoords := |s| >= 2 && s[..2] == "ST";
      if texcoords {
        haveVertexTextureCoordinates := true;
        s := s[2..];
      }
      var colors := |s| >= 1 && s[0] == 'C';
      if colors {
        haveVertexColors := true;
        s := s[1..];
      }
      var normals := |s| >= 1 && s[0] == 'N';
      if normals {
        haveVertexNormals := true;
        s := s[1..];
      }
      var four := |s| >= 1 && s[0] == '4';
      if four {
        st' := st'.(is4Component := true, nbDim := 4);
        s := s[1..];
      }
      var nDim := |s| >= 1 && s[0] == 'n';
      assert d == Descriptor(texcoords, colors, normals, four, nDim);
      if nDim {
        st' := st'.(isNDimensions := true, fileState := FsNDimension);
        return;
      }
      st' := st'.(fileState := FsVertexsAndFacesNumber);
    }

    /** The dimension line of "nOFF". */
    method ReadDimensionLine(conv: Conv, st: ReadState, str: string) returns (st': ReadState, stop: bool)
      requires st.fileState == FsNDimension && !st.isBinary && 1 <= st.nbDim <= 4
      modifies this
      ensures Snapshot(st', stop) == NDimensionStep(conv, old(Snapshot(st, false)), str)
      ensures databasePath == old(databasePath)
    {
      var isOk := conv.isNumber(str);
      if isOk {
        var sl := Tokens(str, ".");
        isOk := |sl| == 1;
      }
      if !isOk {
        return st, true;
      }
      var nbDim: nat := conv.parseUnsignedInt(str);
      if nbDim + (if st.is4Component then 1 else 0) > 4 {
        return st, true;
      } else if nbDim <= 0 {
        nbDim := 3;
      }
      numDim := nbDim;
      st', stop := st.(nbDim := nbDim, fileState := FsVertexsAndFacesNumber), false;
    }

    /** The counts line. */
    method ReadCountsLine(conv: Conv, st: ReadState, str: string) returns (st': ReadState, stop: bool)
      requires st.fileState == FsVertexsAndFacesNumber && !st.isBinary && 1 <= st.nbDim <= 4
      modifies this
      ensures Snapshot(st', stop) == CountsStep(conv, old(Snapshot(st, false)), str)
      ensures databasePath == old(databasePath)
    {
      var sl := Tokens(str, " ");
      if |sl| < 2 {
        return st, true;
      }
      st' := st.(nbVertices := conv.parseUnsignedInt(sl[0]), nbFaces := conv.parseUnsignedInt(sl[1]),
                 fileState := FsVertexsList);
      stop := false;
    }

    /** A vertex line: without vertices to read the reader moves to the end; otherwise its
        number tokens fill a new vertex. */
    method ReadVertexLine(conv: Conv, st: ReadState, str: string) returns (st': ReadState)
      requires st.fileState == FsVertexsList && !st.isBinary && 1 <= st.nbDim <= 4
      modifies this`vertices
      ensures Snapshot(st', false) == VertexLineStep(conv, old(Snapshot(st, false)), str)
    {
      if st.nbVertices == 0 {
        return st.(fileState := FsExit);
      }
      st' := AddVertexLine(conv, st, str);
    }

    /** A vertex line with vertices still to read: one more vertex, and the faces follow
        after the last one. */
    method AddVertexLine(conv: Conv, st: ReadState, str: string) returns (st': ReadState)
      requires st.fileState == FsVertexsList && !st.isBinary && 1 <= st.nbDim <= 4 && st.nbVertices != 0
      modifies this`vertices
      ensures Snapshot(st', false) == VertexLineStep(conv, old(Snapshot(st, false)), str)
    {
      ghost var s0 := Snapshot(st, false);
      var layout := Layout(st.nbDim, st.is4Component, haveVertexNormals, haveVertexColors,
                           haveVertexTextureCoordinates);
      var vertex := ParseVertexLine(conv, layout, str);
      VertexLineStepOf(conv, s0, str, vertex);
      vertices := vertices + [vertex];
      var verticeIndex := st.verticeIndex + 1;
      st' := st.(verticeIndex := verticeIndex,
                 fileState := if verticeIndex >= st.nbVertices then FsFacesList else st.fileState);
    }

    /** A face line: without faces to read or vertices to index the reader moves to the end;
        otherwise its number tokens may make a new face. */
    method ReadFaceLine(conv: Conv, st: ReadState, str: string) returns (st': ReadState)
      requires st.fileState == FsFacesList && !st.isBinary && 1 <= st.nbDim <= 4
      modifies this`faces, this`haveFaceColors
      ensures Snapshot(st', false) == FaceLineStep(conv, old(Snapshot(st, false)), str)
    {
      if st.nbFaces == 0 || |vertices| == 0 {
        return st.(fileState := FsExit);
      }
      st' := AddFaceLine(conv, st, str);
    }

    /** A face line with faces still to read against read vertices: the face it makes, if
        any, is appended, and the reader ends after the announced count. */
    method AddFaceLine(conv: Conv, st: ReadState, str: string) returns (st': ReadState)
      requires st.fileState == FsFacesList && !st.isBinary && 1 <= st.nbDim <= 4
      requires st.nbFaces != 0 && |vertices| != 0
      modifies this`faces, this`haveFaceColors
      ensures Snapshot(st', false) == FaceLineStep(conv, old(Snapshot(st, false)), str)
    {
      ghost var s0 := Snapshot(st, false);
      var face, faceColors := ParseFaceLine(conv, str, |vertices|);
      FaceLineStepOf(conv, s0, str, FaceRead(face, faceColors));
      if face.Some? {
        faces := faces + [face.value];
      }
      assert faces == s0.faces + (if face.Some? then [face.value] else []);
      haveFaceColors := haveFaceColors || faceColors;
      var faceIndex := st.faceIndex + 1;
      st' := st.(faceIndex := faceIndex, fileState := if faceIndex >= st.nbFaces then FsExit else st.fileState);
    }

    /** The `switch` on the file state for a non-blank cleaned line. */
    method ReadTextLine(conv: Conv, st: ReadState, str: string) returns (st': ReadState, stop: bool)
      requires !st.isBinary && 1 <= st.nbDim <= 4 && Fresh(Snapshot(st, false))
      modifies this
      ensures Snapshot(st', stop) == LineStep(conv, old(Snapshot(st, false)), str)
      ensures Fresh(Snapshot(st', stop))
      ensures databasePath == old(databasePath)
    {
      stop := false;
      match st.fileState
      case FsFileDescription =>
        st', stop := ReadDescriptionLine(st, str);
      case FsNDimension =>
        st', stop := ReadDimensionLine(conv, st, str);
      case FsVertexsAndFacesNumber =>
        st', stop := ReadCountsLine(conv, st, str);
      case FsVertexsList =>
        st' := ReadVertexLine(conv, st, str);
      case FsFacesList =>
        st' := ReadFaceLine(conv, st, str);
      case FsExit =>
        st' := st;
    }

    /** `readOFF` on the bytes `data`: it reads the file line by line with `readline` until
        the stream fails or a line ends the reading, and accepts the file when it gave
        vertices and faces. What it reads is the line machine run over the lines `readline`
        handed it (`lines`); for the text file of plain lines `ls`, those lines are `ls`. */
    method ReadOff(conv: Conv, data: seq<byte>, ghost ls: seq<string>)
      returns (ok: bool, isBinary: bool, ghost lines: seq<string>)
      modifies this
      ensures var r := RunText(conv, START, lines);
        ok == Accepted(r) && isBinary == r.isBinary && AsMesh() == MeshOf(r) && numDim == r.numDim
      ensures ok ==> forall i :: 0 <= i < |faces| ==> ValidFace(faces[i], |vertices|)
      ensures databasePath == ""
      ensures forall j :: 0 <= j < |lines| ==> |lines[j]| < LINE_SIZE
      ensures TextFile(data, ls) ==> RunText(conv, START, lines) == RunText(conv, START, ls)
    {
      Init();
      var st := READ_START;
      var pos: nat, fail, stop := 0, false, false;
      lines := [];
      while !fail && !stop
        invariant pos <= |data|
        invariant Snapshot(st, stop) == RunText(conv, START, lines)
        invariant Fresh(Snapshot(st, stop))
        invariant databasePath == ""
        invariant forall j :: 0 <= j < |lines| ==> |lines[j]| < LINE_SIZE
        invariant TextFile(data, ls) ==> Reading(data, ls, lines, pos, fail)
        decreases |data| - pos + (if fail then 0 else 1)
      {
        var _, buffer, pos', fail' := ReadLine(data, pos, fail, LINE_SIZE, false);
        if TextFile(data, ls) {
          NextLine(data, ls, lines, pos, buffer, pos', fail');
        }
        RunTextSnoc(conv, START, lines, buffer);
        ShortLinesSnoc(lines, buffer);
        lines := lines + [buffer];
        pos, fail := pos', fail';
        var str := CleanLine(buffer);
        if str != [] {
          st, stop := ReadTextLine(conv, st, str);
        }
      }
      if TextFile(data, ls) {
        AllLinesRead(conv, data, ls, lines, pos, fail);
      }
      RunKeepsFacesValid(conv, START, lines);
      isBinary := st.isBinary;
      if stop {
        return false, isBinary, lines;
      }
      if |vertices| == 0 {
        return false, isBinary, lines;
      }
      if |faces| == 0 {
        return false, isBinary, lines;
      }
      ok := true;
    }

    // ---------------------------------------------------------------- readOFF_binary

    /** `readOFF_binary` on the bytes `data`. It reads text lines until one is not blank
        once its comment is cut; that line must be a binary descriptor, whose flags it sets.
        The words after that line then give the dimension (of an "nOFF" file), the counts,
        the vertices and the faces; it accepts the file when it gave vertices and faces.
        `lines` are the lines `readline` handed it, `good` says the stream was still good
        after the last of them and `start` is where the words begin. For a file that starts
        with the plain lines `ls`, those lines are the lines of `ls` up to its first that
        is not blank. */
    method ReadOffBinary(conv: Conv, data: seq<byte>, ghost ls: seq<string>)
      returns (ok: bool, ghost lines: seq<string>, ghost good: bool, ghost start: nat)
      modifies this
      ensures good ==> start <= |data|
      ensures var o := BinaryRead(conv, data, lines, good, start);
        ok == o.ok && AsMesh() == OutcomeMesh(o) && numDim == o.numDim
      ensures databasePath == ""
      ensures TextPrefix(data, ls) && FirstContentIndex(ls) < |ls| ==>
        good && lines == ls[..FirstContentIndex(ls) + 1] && start == |Document(lines)|
    {
      Init();
      var found, d, pos, fail;
      found, d, pos, fail, lines := ReadBinaryHeader(data, ls);
      good, start := !fail, pos;
      if !found || fail {
        return false, lines, good, start;
      }
      var startBinaryPart := pos;
      ok := ReadBinaryBody(conv, data, startBinaryPart, d);
    }

    /** The header lines of `readOFF_binary`: blank lines are skipped; the first other line
        must be a binary descriptor, whose flags are then set. Without one the model is left
        as `init` left it. */
    method ReadBinaryHeader(data: seq<byte>, ghost ls: seq<string>)
      returns (found: bool, d: Descriptor, pos: nat, fail: bool, ghost lines: seq<string>)
      modifies this`haveVertexTextureCoordinates, this`haveVertexColors, this`haveVertexNormals
      requires Initial()
      ensures pos <= |data|
      ensures found <==> HeaderOf(lines).Header?
      ensures !found ==> Initial()
      ensures found ==> (HeaderOf(lines) == Header(d) && vertices == [] && faces == [] &&
                         databasePath == "" && numDim == 3 && !haveFaceColors &&
                         haveVertexTextureCoordinates == d.texcoords && haveVertexColors == d.colors &&
                         haveVertexNormals == d.normals)
      ensures TextPrefix(data, ls) && FirstContentIndex(ls) < |ls| ==>
        !fail && lines == ls[..FirstContentIndex(ls) + 1] && pos == |Document(lines)|
    {
      found, d, pos, fail, lines := ReadHeaderLines(data, ls);
      if found {
        haveVertexTextureCoordinates, haveVertexColors, haveVertexNormals := d.texcoords, d.colors, d.normals;
      }
    }

    /** The words of `readOFF_binary` from `start` on, under the descriptor `d`: the
        dimension word of an "nOFF" file, checked against the four components a vertex has,
        then the counts and the vertex and face lists. */
    method ReadBinaryBody(conv: Conv, data: seq<byte>, start: nat, d: Descriptor) returns (ok: bool)
      modifies this`vertices, this`faces, this`numDim
      requires start <= |data| && vertices == [] && faces == [] && numDim == 3
      ensures var o := BinaryBody(conv, WordsFrom(data, start), d);
        ok == o.ok && vertices == o.vertices && faces == o.faces && numDim == o.numDim
    {
      ghost var ws := WordsFrom(data, start);
      var offset := start;
      var nbDim := if d.is4 then 4 else 3;
      if d.nDim {
        var w;
        w, offset := ReadWord(data, start, ws, offset, 0);
        var checked := BinaryNDim(ToSizeT(w), d.is4);
        if checked.None? {
          return false;
        }
        nbDim := checked.value;
        numDim := nbDim;
      }
      assert BinaryDim(ws, d) == Some(nbDim);
      ok := ReadBinaryLists(conv, data, start, ws, offset, d, nbDim);
    }

    /** The counts of `readOFF_binary` (the edge count is read and ignored), then, when there
        are vertices, the vertex list and, when there are faces too, the face list. */
    method ReadBinaryLists(conv: Conv, data: seq<byte>, start: nat, ghost ws: seq<U32>, offset: nat,
                           d: Descriptor, nbDim: nat)
      returns (ok: bool)
      modifies this`vertices, this`faces
      requires start <= |data| && ws == WordsFrom(data, start) && 1 <= nbDim <= 4
      requires offset == StreamAt(start, ws, Bit(d.nDim)) && vertices == [] && faces == []
      ensures var o := BinaryLists(conv, ws, d, nbDim);
        ok == o.ok && vertices == o.vertices && faces == o.faces
    {
      ghost var p := Bit(d.nDim);
      var nv, nf, offset' := ReadCounts(data, start, ws, offset, p);
      var l := Layout(nbDim, d.is4, d.normals, d.colors, d.texcoords);
      ghost var q := Skip(p + 3, nv, |Slots(l)|);
      ListsParts(conv, ws, d, nbDim, nv, nf, q);
      ReadVertexAndFaceLists(conv, data, start, ws, offset', l, p + 3, nv, nf);
      ok := |vertices| != 0 && |faces| != 0;
    }

    /** The vertex list when there are vertices, then the face list when there are faces too. */
    method ReadVertexAndFaceLists(conv: Conv, data: seq<byte>, start: nat, ghost ws: seq<U32>, offset: nat,
                                  l: Layout, ghost p: nat, nv: nat, nf: nat)
      modifies this`vertices, this`faces
      requires start <= |data| && ws == WordsFrom(data, start) && ValidLayout(l)
      requires offset == StreamAt(start, ws, p) && vertices == [] && faces == []
      ensures vertices == BinaryVertices(conv, ws, l, p, nv)
      ensures faces == if nv == 0 || nf == 0 then [] else BinaryFaces(ws, Skip(p, nv, |Slots(l)|), nf, nv)
    {
      if nv != 0 {
        var offset' := ReadBinaryVertices(conv, data, start, ws, l, offset, p, nv);
        assert vertices == [] + BinaryVertices(conv, ws, l, p, nv) == BinaryVertices(conv, ws, l, p, nv);
        if nf != 0 {
          offset' := ReadBinaryFaces(data, start, ws, offset', Skip(p, nv, |Slots(l)|), nf);
          assert faces == [] + BinaryFaces(ws, Skip(p, nv, |Slots(l)|), nf, nv);
        }
      } else {
        assert BinaryVertices(conv, ws, l, p, nv) == [];
      }
    }

    /** The vertex list of `readOFF_binary`: `nbVertices` vertices read one after the other
        from word `p` on, each appended to the vertex array. */
    method ReadBinaryVertices(conv: Conv, data: seq<byte>, start: nat, ghost ws: seq<U32>, l: Layout,
                              offset: nat, ghost p: nat, nbVertices: nat)
      returns (offset': nat)
      modifies this`vertices
      requires start <= |data| && ws == WordsFrom(data, start) && ValidLayout(l)
      requires offset == StreamAt(start, ws, p)
      ensures vertices == old(vertices) + BinaryVertices(conv, ws, l, p, nbVertices)
      ensures offset' == StreamAt(start, ws, Skip(p, nbVertices, |Slots(l)|))
    {
      offset' := offset;
      ghost var q := p;
      for verticeIndex := 0 to nbVertices
        invariant q == Skip(p, verticeIndex, |Slots(l)|) && offset' == StreamAt(start, ws, q)
        invariant vertices == old(vertices) + BinaryVertices(conv, ws, l, p, verticeIndex)
      {
        var vertex;
        vertex, offset' := ReadBinaryVertex(conv, data, start, ws, l, offset', q);
        BinaryVerticesSnoc(conv, ws, l, p, verticeIndex);
        vertices := vertices + [vertex];
        SkipNext(p, verticeIndex, |Slots(l)|);
        q := q + |Slots(l)|;
      }
    }

    /** The face list of `readOFF_binary`: `nbFaces` face records read one after the other
        from word `p` on; the faces kept are appended to the face array. */
    method ReadBinaryFaces(data: seq<byte>, start: nat, ghost ws: seq<U32>, offset: nat, ghost p: nat,
                           nbFaces: nat)
      returns (offset': nat)
      modifies this`faces
      requires start <= |data| && ws == WordsFrom(data, start) && offset == StreamAt(start, ws, p)
      ensures faces == old(faces) + BinaryFaces(ws, p, nbFaces, |vertices|)
    {
      offset' := offset;
      ghost var q := p;
      var nbVertices := |vertices|;
      ghost var all := faces + BinaryFaces(ws, p, nbFaces, nbVertices);
      for faceIndex := 0 to nbFaces
        invariant offset' == StreamAt(start, ws, q)
        invariant all == faces + BinaryFaces(ws, q, nbFaces - faceIndex, nbVertices)
      {
        faces, offset', q := ReadFaceRecord(data, start, ws, offset', q, nbFaces - faceIndex, nbVertices, faces);
      }
    }

    // ---------------------------------------------------------------- writeOFF

    /** `writeOFF` (text form): nothing when the model has no vertex or no face; otherwise the
        comment, the descriptor, the counts, one line per vertex and one per face. */
    method WriteOff(conv: Conv) returns (ok: bool, out: string)
      ensures ok <==> |vertices| > 0 && |faces| > 0
      ensures ok ==> out == Document(WrittenLines(conv, AsMesh()))
      ensures !ok ==> out == []
    {
      if |vertices| == 0 || |faces| == 0 {
        return false, [];
      }
      var d := Descriptor(haveVertexTextureCoordinates, haveVertexColors, haveVertexNormals, false, false);
      var vs, fs, faceColors := vertices, faces, haveFaceColors;
      out := WriteHeader(d, |vs|, |fs|);
      ghost var header := [WRITER_COMMENT, DescriptorText(d), CountsText(|vs|, |fs|)];
      var vertexText := WriteVertexLines(conv, vs, d);
      out := out + vertexText;
      var faceText := WriteFaceLines(conv, fs, faceColors);
      out := out + faceText;
      DocumentAppend(header + VertexLines(conv, vs, d), FaceLines(conv, fs, faceColors));
      DocumentAppend(header, VertexLines(conv, vs, d));
      assert WriterDescriptor(AsMesh()) == d;
      ok := true;
    }

    /** `writeOFF_binary`: nothing when the model has no vertex or no face; otherwise the
        comment and descriptor lines, then the counts, the vertex records and the face records
        as big-endian words. */
    method WriteOffBinary(conv: Conv) returns (ok: bool, out: seq<byte>)
      ensures ok <==> |vertices| > 0 && |faces| > 0
      ensures ok ==> out == WrittenBinary(conv, AsMesh())
      ensures !ok ==> out == []
    {
      if |vertices| == 0 || |faces| == 0 {
        return false, [];
      }
      var d := Descriptor(haveVertexTextureCoordinates, haveVertexColors, haveVertexNormals, false, false);
      var vs, fs, faceColors := vertices, faces, haveFaceColors;
      out := BinaryHeaderBytes(d);
      ghost var head := out;
      ghost var counts: seq<int> := [|vs|, |fs|, 0];
      out := PutWord(out, |vs|);
      out := PutWord(out, |fs|);
      WrittenAfter(head, [|vs|], [|fs|]);
      assert [|vs|] + [|fs|] == counts[..2];
      out := PutWord(out, 0);
      WrittenAfter(head, counts[..2], [0]);
      assert counts[..2] + [0] == counts;
      ghost var vw := OffBinaryWriter.Concat(VertexRecords(conv, vs, d));
      out := PutVertices(conv, out, vs, d);
      WrittenAfter(head, counts, vw);
      out := PutFaces(conv, out, fs, faceColors);
      WrittenAfter(head, counts + vw, OffBinaryWriter.Concat(FaceRecords(conv, fs, faceColors)));
      assert WriterDescriptor(AsMesh()) == d;
      ok := true;
    }
  }

  /** The vertex-list branch of `readOFF` up to the `push_back`: the line split at spaces,
      its non-numbers removed, its numbers stored by the vertex machine. */
  method ParseVertexLine(conv: Conv, l: Layout, str: string) returns (v: Vertex)
    requires ValidLayout(l)
    ensures v == VertexOf(l, ParseAll(conv, NumbersOnly(conv, Tokens(str, " "))), true)
  {
    var sl := Tokens(str, " ");
    sl := RemoveNonNumbers(conv, sl);
    v := ReadVertex(conv, l, sl);
  }

  /** The face-list branch of `readOFF` up to the `push_back`: the line split at spaces, its
      non-numbers removed, the face read from the numbers left. */
  method ParseFaceLine(conv: Conv, str: string, nbVertices: nat) returns (face: Option<Face>, faceColors: bool)
    ensures FaceRead(face, faceColors) == FaceOf(conv, NumbersOnly(conv, Tokens(str, " ")), nbVertices)
  {
    var sl := Tokens(str, " ");
    sl := RemoveNonNumbers(conv, sl);
    face, faceColors := ReadFace(conv, sl, nbVertices);
  }

  /** The first three lines of `writeOFF`: the comment, the descriptor with the flags of
      `d`, and the counts. */
  method WriteHeader(d: Descriptor, nbVertex: nat, nbFaces: nat) returns (out: string)
    ensures out == Document([WRITER_COMMENT, DescriptorText(d), CountsText(nbVertex, nbFaces)])
  {
    out := WRITER_COMMENT + "\n";
    var desc := "";
    if d.texcoords {
      desc := desc + "ST";
    }
    if d.colors {
      desc := desc + "C";
    }
    if d.normals {
      desc := desc + "N";
    }
    desc := desc + "OFF";
    out := out + desc + "\n";
    var counts := NatToDecimal(nbVertex) + " " + NatToDecimal(nbFaces) + " 0";
    out := out + counts + "\n";
    assert desc == DescriptorText(d);
    ThreeLines(WRITER_COMMENT, desc, counts);
  }

  /** The vertex loop of `writeOFF`: one line per vertex. */
  method WriteVertexLines(conv: Conv, vs: seq<Vertex>, d: Descriptor) returns (out: string)
    ensures out == Document(VertexLines(conv, vs, d))
  {
    out := "";
    for i := 0 to |vs|
      invariant out == Document(VertexLines(conv, vs[..i], d))
    {
      var line := VertexText(conv, vs[i], d);
      LinesSnoc(VertexLines(conv, vs[..i], d), line);
      VertexLinesSnoc(conv, vs, d, i);
      out := out + line + "\n";
    }
    assert vs[..|vs|] == vs;
  }

  /** The face loop of `writeOFF`: one line per face. */
  method WriteFaceLines(conv: Conv, fs: seq<Face>, faceColors: bool) returns (out: string)
    ensures out == Document(FaceLines(conv, fs, faceColors))
  {
    out := "";
    for i := 0 to |fs|
      invariant out == Document(FaceLines(conv, fs[..i], faceColors))
    {
      var line := FaceText(conv, fs[i], faceColors);
      LinesSnoc(FaceLines(conv, fs[..i], faceColors), line);
      FaceLinesSnoc(conv, fs, faceColors, i);
      out := out + line + "\n";
    }
    assert fs[..|fs|] == fs;
  }

  /** The file of three lines. */
  lemma ThreeLines(a: string, b: string, c: string)
    ensures Document([a, b, c]) == a + "\n" + b + "\n" + c + "\n"
  {
    LinesSnoc([a, b], c);
    LinesSnoc([a], b);
    LinesSnoc([], a);
    assert [a, b] + [c] == [a, b, c] && [a] + [b] == [a, b] && [] + [a] == [a];
  }

  /** The file of one more line. */
  lemma LinesSnoc(ls: seq<string>, line: string)
    ensures Document(ls + [line]) == Document(ls) + line + "\n"
  {
    assert (ls + [line])[..|ls|] == ls;
  }

  lemma VertexLinesSnoc(conv: Conv, vs: seq<Vertex>, d: Descriptor, i: nat)
    requires i < |vs|
    ensures VertexLines(conv, vs[..i + 1], d) == VertexLines(conv, vs[..i], d) + [VertexLine(conv, vs[i], d)]
  {
  }

  lemma FaceLinesSnoc(conv: Conv, fs: seq<Face>, faceColors: bool, i: nat)
    requires i < |fs|
    ensures FaceLines(conv, fs[..i + 1], faceColors) == FaceLines(conv, fs[..i], faceColors) + [FaceLine(conv, fs[i], faceColors)]
  {
  }

  /** `out << ' ' << r`: one more printed value on the line. */
  method AppendValue(conv: Conv, line: string, ghost vals: seq<real>, r: real) returns (line': string)
    requires vals != [] && line == Join(Words(conv, vals), ' ')
    ensures line' == Join(Words(conv, vals + [r]), ' ')
  {
    line' := line + " " + conv.formatFloat(r);
    JoinSnoc(Words(conv, vals), conv.formatFloat(r), ' ');
    assert Words(conv, vals + [r]) == Words(conv, vals) + [conv.formatFloat(r)];
  }

  /** The vertex line `writeOFF` prints: the position, then the normal, the colour and the
      texture coordinate as the flags ask. */
  method VertexText(conv: Conv, v: Vertex, d: Descriptor) returns (line: string)
    ensures line == VertexLine(conv, v, d)
  {
    line := conv.formatFloat(v.position.x);
    assert Words(conv, [v.position.x]) == [line];
    line := AppendValues(conv, line, [v.position.x], [v.position.y, v.position.z]);
    ghost var vals := [v.position.x] + [v.position.y, v.position.z];
    if d.normals {
      line := AppendValues(conv, line, vals, [v.normal.x, v.normal.y, v.normal.z]);
      vals := vals + [v.normal.x, v.normal.y, v.normal.z];
    }
    if d.colors {
      line := AppendValues(conv, line, vals, [v.color.x, v.color.y, v.color.z, v.color.w]);
      vals := vals + [v.color.x, v.color.y, v.color.z, v.color.w];
    }
    if d.texcoords {
      line := AppendValues(conv, line, vals, [v.texcoord.x, v.texcoord.y]);
      vals := vals + [v.texcoord.x, v.texcoord.y];
    }
    assert vals == VertexValues(v, d);
  }

  /** Appending the two to four values of `group` one by one appends `group`. */
  lemma GroupAppended(vals: seq<real>, group: seq<real>, done: seq<real>)
    requires 2 <= |group| <= 4
    requires done == vals + [group[0]] + [group[1]] + (if |group| > 2 then [group[2]] else []) +
                     (if |group| > 3 then [group[3]] else [])
    ensures done == vals + group
  {
    if |group| == 2 {
      assert group == [group[0]] + [group[1]];
    } else if |group| == 3 {
      assert group == [group[0]] + [group[1]] + [group[2]];
    } else {
      assert group == [group[0]] + [group[1]] + [group[2]] + [group[3]];
    }
  }

  /** One more line shorter than the `readline` buffer keeps every line shorter. */
  lemma ShortLinesSnoc(lines: seq<string>, line: string)
    requires forall j :: 0 <= j < |lines| ==> |lines[j]| < LINE_SIZE
    requires |line| < LINE_SIZE
    ensures forall j :: 0 <= j < |lines + [line]| ==> |(lines + [line])[j]| < LINE_SIZE
  {
  }

  /** `out << ' ' << a << ' ' << b ...`: a group of two to four printed values. */
  method AppendValues(conv: Conv, line: string, ghost vals: seq<real>, group: seq<real>) returns (line': string)
    requires vals != [] && line == Join(Words(conv, vals), ' ') && 2 <= |group| <= 4
    ensures line' == Join(Words(conv, vals + group), ' ')
  {
    ghost var done := vals;
    line' := AppendValue(conv, line, done, group[0]);
    done := done + [group[0]];
    line' := AppendValue(conv, line', done, group[1]);
    done := done + [group[1]];
    if |group| > 2 {
      line' := AppendValue(conv, line', done, group[2]);
      done := done + [group[2]];
    }
    if |group| > 3 {
      line' := AppendValue(conv, line', done, group[3]);
      done := done + [group[3]];
    }
    GroupAppended(vals, group, done);
  }

  /** `out << ' ' << w`: one more word on the line. */
  method AppendWord(line: string, ghost ws: seq<string>, w: string) returns (line': string)
    requires ws != [] && line == Join(ws, ' ')
    ensures line' == Join(ws + [w], ' ')
  {
    line' := line + " " + w;
    JoinSnoc(ws, w, ' ');
  }

  /** The face line `writeOFF` prints: the index count, the indices, then the colour or the
      colour-map index when the model has face colours. */
  method FaceText(conv: Conv, f: Face, hasFaceColors: bool) returns (line: string)
    ensures line == FaceLine(conv, f, hasFaceColors)
  {
    var nbIndex := |f.indices|;
    line := NatToDecimal(nbIndex);
    ghost var ws := [line];
    for j := 0 to nbIndex
      invariant ws == [NatToDecimal(nbIndex)] + Decimals(f.indices[..j]) && line == Join(ws, ' ')
    {
      line := AppendWord(line, ws, NatToDecimal(f.indices[j]));
      ws := ws + [NatToDecimal(f.indices[j])];
      assert Decimals(f.indices[..j + 1]) == Decimals(f.indices[..j]) + [NatToDecimal(f.indices[j])];
    }
    assert f.indices[..nbIndex] == f.indices;
    ghost var words := ws;
    assert words == [NatToDecimal(|f.indices|)] + Decimals(f.indices);
    if !hasFaceColors {
      assert ws == words + ColorWords(conv, f, hasFaceColors);
    } else {
      if f.colormapIndex == NO_COLORMAP {
        var x, y, z, w := conv.formatFloat(f.color.x), conv.formatFloat(f.color.y),
                          conv.formatFloat(f.color.z), conv.formatFloat(f.color.w);
        line := AppendWord(line, ws, x);
        ws := ws + [x];
        line := AppendWord(line, ws, y);
        ws := ws + [y];
        line := AppendWord(line, ws, z);
        ws := ws + [z];
        line := AppendWord(line, ws, w);
        ws := ws + [w];
        FourWords(conv, f, words);
      } else {
        line := AppendWord(line, ws, NatToDecimal(f.colormapIndex));
        ws := ws + [NatToDecimal(f.colormapIndex)];
      }
      assert ws == words + ColorWords(conv, f, hasFaceColors);
    }
    assert ws == OffText.FaceWords(conv, f, hasFaceColors);
  }

  /** The four colour words follow the index words one by one. */
  lemma FourWords(conv: Conv, f: Face, words: seq<string>)
    requires f.colormapIndex == NO_COLORMAP
    ensures words + [conv.formatFloat(f.color.x)] + [conv.formatFloat(f.color.y)] +
            [conv.formatFloat(f.color.z)] + [conv.formatFloat(f.color.w)] ==
            words + ColorWords(conv, f, true)
  {
    var ws := Words(conv, [f.color.x, f.color.y, f.color.z, f.color.w]);
    assert ws == [conv.formatFloat(f.color.x), conv.formatFloat(f.color.y),
                  conv.formatFloat(f.color.z), conv.formatFloat(f.color.w)];
  }
}
