/** The binary OFF format as `off::Model::readOFF_binary` and `off::Model::writeOFF_binary`
    (off.cpp) handle it: a header of text lines ended by a descriptor that ends in "BINARY",
    then big-endian 32-bit words: the dimension of an "nOFF" file, the three counts, the
    vertex components as floats and the faces as index lists. */
module OffBinary {
  import opened Common
  import opened OffTypes
  import opened OffLine
  import opened OffText
  import opened OffScan
  import opened OffFile

  // ---------------------------------------------------------------- the word stream

  /** The complete big-endian words of `data` from `start` on; the bytes of a last, partial
      word are never read. */
  function WordsFrom(data: seq<byte>, start: nat): (ws: seq<U32>)
    requires start <= |data|
    ensures 4 * |ws| <= |data| - start < 4 * |ws| + 4
  {
    seq((|data| - start) / 4, p requires 0 <= p < (|data| - start) / 4 => WordAt(data, start + 4 * p, true))
  }

  /** Word `p` of the stream is the word at byte `start + 4 * p`. */
  lemma WordsFromAt(data: seq<byte>, start: nat, p: nat)
    requires start <= |data| && p < |WordsFrom(data, start)|
    ensures start + 4 * p + 4 <= |data| && WordsFrom(data, start)[p] == WordAt(data, start + 4 * p, true)
  {
  }

  /** Where the stream of words `ws` read from byte `start` stands after `p` reads of a word:
      `readInt` and `readFloat` leave it alone once no complete word remains. */
  function StreamAt(start: nat, ws: seq<U32>, p: nat): nat
  {
    start + 4 * Min(p, |ws|)
  }

  /** Word `p` read as an `int`: 0 past the last complete word. */
  function IntAt(ws: seq<U32>, p: nat): Int32
  {
    if p < |ws| then AsInt32(ws[p]) else 0
  }

  /** Word `p` read as an `int` and stored into a `size_t`: negative values wrap around. */
  function SizeAt(ws: seq<U32>, p: nat): SizeT
  {
    ToSizeT(IntAt(ws, p))
  }

  /** Word `p` read as a float's bit pattern: 0.0 past the last complete word. */
  function FloatAt(conv: Conv, ws: seq<U32>, p: nat): real
  {
    if p < |ws| then conv.floatOfBits(ws[p]) else 0.0
  }

  /** The `k` floats from word `p` on. */
  function FloatsAt(conv: Conv, ws: seq<U32>, p: nat, k: nat): (vals: seq<real>)
    ensures |vals| == k && forall j :: 0 <= j < k ==> vals[j] == FloatAt(conv, ws, p + j)
  {
    seq(k, j requires 0 <= j < k => FloatAt(conv, ws, p + j))
  }

  /** `readInt(fin, fileSize, startOffset, true)` as the `p`-th read of the words `ws` from
      `start`: it returns word `p` and moves the stream on by one word, if there is one. */
  method ReadWord(data: seq<byte>, start: nat, ghost ws: seq<U32>, offset: nat, ghost p: nat)
    returns (value: Int32, offset': nat)
    requires start <= |data| && ws == WordsFrom(data, start) && offset == StreamAt(start, ws, p)
    ensures value == IntAt(ws, p)
    ensures offset' == StreamAt(start, ws, p + 1)
  {
    value, offset' := ReadInt(data, |data|, offset, true);
    if p < |ws| {
      WordsFromAt(data, start, p);
    }
  }

  /** The vertex, face and edge counts from word `p` on, each read as an `int` and stored
      into a `size_t`; the edge count is read past and not used. */
  method ReadCounts(data: seq<byte>, start: nat, ghost ws: seq<U32>, offset: nat, ghost p: nat)
    returns (nbVertices: SizeT, nbFaces: SizeT, offset': nat)
    requires start <= |data| && ws == WordsFrom(data, start) && offset == StreamAt(start, ws, p)
    ensures nbVertices == SizeAt(ws, p) && nbFaces == SizeAt(ws, p + 1)
    ensures offset' == StreamAt(start, ws, p + 3)
  {
    var v, f, e;
    v, offset' := ReadWord(data, start, ws, offset, p);
    f, offset' := ReadWord(data, start, ws, offset', p + 1);
    e, offset' := ReadWord(data, start, ws, offset', p + 2);
    nbVertices, nbFaces := ToSizeT(v), ToSizeT(f);
  }

  /** `readFloat(fin, fileSize, startOffset, true)` as the `p`-th read of the words `ws`. */
  method ReadFloatWord(conv: Conv, data: seq<byte>, start: nat, ghost ws: seq<U32>, offset: nat, ghost p: nat)
    returns (value: real, offset': nat)
    requires start <= |data| && ws == WordsFrom(data, start) && offset == StreamAt(start, ws, p)
    ensures value == FloatAt(conv, ws, p)
    ensures offset' == StreamAt(start, ws, p + 1)
  {
    value, offset' := ReadFloat(conv, data, |data|, offset, true);
    if p < |ws| {
      WordsFromAt(data, start, p);
    }
  }

  // ---------------------------------------------------------------- the dimension word

  /** The check `readOFF_binary` makes of the dimension word, as written: `nbDim` is a
      `size_t` and `nbDim + 1` (with the "4" flag) is computed in `size_t`, so it wraps
      around for the largest value. None stands for the early return; 0 stands for 3. */
  function NDimAsWritten(nbDim: SizeT, is4: bool): (r: Option<nat>)
  {
    var total := (nbDim + Bit(is4)) % 0x1_0000_0000_0000_0000;
    if total > 4 then None else if nbDim == 0 then Some(3) else Some(nbDim)
  }

  /** The word -1 in a "4nOFF" file passes the check as written: `nbDim` becomes the largest
      `size_t`, far beyond the four components a vertex has, and the vertex loop then stores
      components at that many positions of a four-component vector. */
  lemma NDimAsWrittenOverflows()
    ensures SizeAt([0xFFFF_FFFF], 0) == SIZE_T_MAX
    ensures NDimAsWritten(SizeAt([0xFFFF_FFFF], 0), true) == Some(SIZE_T_MAX)
    ensures !ValidLayout(Layout(SIZE_T_MAX, true, false, false, false))
  {
  }

  /** The check as intended: the dimension and the fourth component fit the four components
      of a vector. */
  function BinaryNDim(nbDim: SizeT, is4: bool): (r: Option<nat>)
    ensures r.None? <==> nbDim + Bit(is4) > 4
    ensures r.Some? ==> 1 <= r.value && r.value + Bit(is4) <= 4
    ensures nbDim == 0 ==> r == Some(3)
  {
    if nbDim + Bit(is4) > 4 then None else if nbDim == 0 then Some(3) else Some(nbDim)
  }

  /** The intended check differs from the written one only where the sum wraps around: the
      largest `size_t` with the "4" flag. */
  lemma NDimChecksAgree(nbDim: SizeT, is4: bool)
    ensures NDimAsWritten(nbDim, is4) == BinaryNDim(nbDim, is4) <==> !(nbDim == SIZE_T_MAX && is4)
  {
  }

  // ---------------------------------------------------------------- vertices and faces read

  /** The word after `n` records of `k` words each from word `p` on. */
  function Skip(p: nat, n: nat, k: nat): (q: nat)
    ensures q >= p
  {
    p + n * k
  }

  /** Vertex `i` of a run of vertices from word `p` on: each takes one float per component
      the layout lists; colour channels are stored as they are. */
  function BinaryVertex(conv: Conv, ws: seq<U32>, l: Layout, p: nat, i: nat): Vertex
    requires ValidLayout(l)
  {
    VertexOf(l, FloatsAt(conv, ws, p + i * |Slots(l)|, |Slots(l)|), false)
  }

  function BinaryVertices(conv: Conv, ws: seq<U32>, l: Layout, p: nat, n: nat): (vs: seq<Vertex>)
    requires ValidLayout(l)
    ensures |vs| == n && forall i :: 0 <= i < n ==> vs[i] == BinaryVertex(conv, ws, l, p, i)
  {
    seq(n, i requires 0 <= i < n => BinaryVertex(conv, ws, l, p, i))
  }

  /** The indices among the first `c` words from `q` on that name one of `nbVertices`
      vertices, in order; the others are skipped. */
  function KeptWords(ws: seq<U32>, q: nat, c: nat, nbVertices: nat): (ids: seq<nat>)
    ensures |ids| <= c
    decreases c
  {
    if c == 0 then []
    else
      var ids := KeptWords(ws, q, c - 1, nbVertices);
      var x := SizeAt(ws, q + c - 1);
      if x < nbVertices then ids + [x] else ids
  }

  /** Every index kept names a vertex. */
  lemma {:induction false} KeptWordsNameVertices(ws: seq<U32>, q: nat, c: nat, nbVertices: nat)
    ensures forall j :: 0 <= j < |KeptWords(ws, q, c, nbVertices)| ==> KeptWords(ws, q, c, nbVertices)[j] < nbVertices
    decreases c
  {
    if c > 0 {
      KeptWordsNameVertices(ws, q, c - 1, nbVertices);
    }
  }

  /** The faces of `n` face records from word `p` on, read against `nbVertices` vertices: a
      count, then that many indices. A face keeps the indices that name a vertex, and is
      dropped when fewer than three remain; no colour is read. */
  function BinaryFaces(ws: seq<U32>, p: nat, n: nat, nbVertices: nat): (fs: seq<Face>)
    ensures |fs| <= n
    decreases n
  {
    if n == 0 then []
    else
      var c := SizeAt(ws, p);
      var ids := KeptWords(ws, p + 1, c, nbVertices);
      (if |ids| >= 3 then [DEFAULT_FACE.(indices := ids)] else []) + BinaryFaces(ws, p + 1 + c, n - 1, nbVertices)
  }

  /** Every face read is a face of the vertices: at least three indices, each naming one. */
  lemma {:induction false} BinaryFacesValid(ws: seq<U32>, p: nat, n: nat, nbVertices: nat)
    ensures forall i :: 0 <= i < |BinaryFaces(ws, p, n, nbVertices)| ==>
      ValidFace(BinaryFaces(ws, p, n, nbVertices)[i], nbVertices)
    decreases n
  {
    if n > 0 {
      var c := SizeAt(ws, p);
      KeptWordsNameVertices(ws, p + 1, c, nbVertices);
      BinaryFacesValid(ws, p + 1 + c, n - 1, nbVertices);
    }
  }

  /** One more vertex read is one more vertex at the end. */
  lemma BinaryVerticesSnoc(conv: Conv, ws: seq<U32>, l: Layout, p: nat, n: nat)
    requires ValidLayout(l)
    ensures BinaryVertices(conv, ws, l, p, n + 1) ==
            BinaryVertices(conv, ws, l, p, n) + [VertexOf(l, FloatsAt(conv, ws, Skip(p, n, |Slots(l)|), |Slots(l)|), false)]
  {
    assert BinaryVertices(conv, ws, l, p, n + 1)[n] == BinaryVertex(conv, ws, l, p, n);
  }

  /** The next block of `k` words starts `k` words further on. */
  lemma SkipNext(p: nat, i: nat, k: nat)
    ensures Skip(p, i, k) + k == Skip(p, i + 1, k)
  {
  }

  /** Reading one face record moves the remaining records on: the face kept, if any, joins
      the faces read so far. */
  lemma FacesStep(ws: seq<U32>, q: nat, n: nat, nbVertices: nat, fs: seq<Face>, face: Option<Face>)
    requires n > 0
    requires var ids := KeptWords(ws, q + 1, SizeAt(ws, q), nbVertices);
      face == if |ids| >= 3 then Some(DEFAULT_FACE.(indices := ids)) else None
    ensures fs + BinaryFaces(ws, q, n, nbVertices) ==
            (if face.Some? then fs + [face.value] else fs) + BinaryFaces(ws, q + 1 + SizeAt(ws, q), n - 1, nbVertices)
  {
    var rest := BinaryFaces(ws, q + 1 + SizeAt(ws, q), n - 1, nbVertices);
    if face.Some? {
      assert BinaryFaces(ws, q, n, nbVertices) == [face.value] + rest;
      assert fs + ([face.value] + rest) == (fs + [face.value]) + rest;
    } else {
      assert BinaryFaces(ws, q, n, nbVertices) == [] + rest;
    }
  }

  /** What `readOFF_binary` leaves: its result, the flags of the descriptor, the dimension
      and the arrays. */
  datatype Outcome = Outcome(ok: bool, flags: Descriptor, numDim: nat,
                             vertices: seq<Vertex>, faces: seq<Face>)

  /** The number of position components under descriptor `d`: 4 with the "4" flag, 3
      without, or, in an "nOFF" file, the dimension word as the corrected check accepts it. */
  function BinaryDim(ws: seq<U32>, d: Descriptor): (r: Option<nat>)
    ensures r.Some? ==> 1 <= r.value <= 4
    ensures !d.nDim ==> r == Some(if d.is4 then 4 else 3)
  {
    if d.nDim then BinaryNDim(SizeAt(ws, 0), d.is4) else Some(if d.is4 then 4 else 3)
  }

  /** The counts, vertices and faces from word `Bit(d.nDim)` on, for `nbDim` position
      components. */
  function BinaryLists(conv: Conv, ws: seq<U32>, d: Descriptor, nbDim: nat): (o: Outcome)
    requires 1 <= nbDim <= 4
    ensures o.flags == d
    ensures o.ok <==> |o.vertices| > 0 && |o.faces| > 0
    ensures forall i :: 0 <= i < |o.faces| ==> ValidFace(o.faces[i], |o.vertices|)
  {
    var p := Bit(d.nDim);
    var nv, nf := SizeAt(ws, p), SizeAt(ws, p + 1);
    var l := Layout(nbDim, d.is4, d.normals, d.colors, d.texcoords);
    var vs := BinaryVertices(conv, ws, l, p + 3, nv);
    var q := Skip(p + 3, nv, |Slots(l)|);
    var fs := if nv == 0 || nf == 0 then [] else BinaryFaces(ws, q, nf, nv);
    BinaryFacesValid(ws, q, nf, nv);
    Outcome(nv != 0 && |fs| != 0, d, if d.nDim then nbDim else 3, vs, fs)
  }

  /** `BinaryLists` piece by piece, for counts `nv` and `nf` and faces from word `q` on. */
  lemma ListsParts(conv: Conv, ws: seq<U32>, d: Descriptor, nbDim: nat, nv: nat, nf: nat, q: nat)
    requires 1 <= nbDim <= 4
    requires nv == SizeAt(ws, Bit(d.nDim)) && nf == SizeAt(ws, Bit(d.nDim) + 1)
    requires var l := Layout(nbDim, d.is4, d.normals, d.colors, d.texcoords);
      q == Skip(Bit(d.nDim) + 3, nv, |Slots(l)|)
    ensures var o, l := BinaryLists(conv, ws, d, nbDim), Layout(nbDim, d.is4, d.normals, d.colors, d.texcoords);
      o.vertices == BinaryVertices(conv, ws, l, Bit(d.nDim) + 3, nv) &&
      o.faces == (if nv == 0 || nf == 0 then [] else BinaryFaces(ws, q, nf, nv)) &&
      o.ok == (nv != 0 && |o.faces| != 0)
  {
  }

  /** The words after the header, read under descriptor `d`: the dimension word of an
      "nOFF" file, the vertex, face and edge counts, the vertices, the faces. The reader
      succeeds when it ends with vertices and faces. */
  function BinaryBody(conv: Conv, ws: seq<U32>, d: Descriptor): (o: Outcome)
    ensures o.flags == d
    ensures o.ok <==> |o.vertices| > 0 && |o.faces| > 0
    ensures forall i :: 0 <= i < |o.faces| ==> ValidFace(o.faces[i], |o.vertices|)
    ensures 1 <= o.numDim <= 4
  {
    match BinaryDim(ws, d)
    case None => Outcome(false, d, 3, [], [])
    case Some(nbDim) => BinaryLists(conv, ws, d, nbDim)
  }

  // ---------------------------------------------------------------- the header lines

  datatype HeaderScan = NoHeader | BadHeader | Header(d: Descriptor)

  /** The header lines of `readOFF_binary`: lines blank once the comment is cut are skipped;
      the first other line must be a binary descriptor. */
  function HeaderOf(lines: seq<string>): (h: HeaderScan)
    ensures h.NoHeader? <==> forall j :: 0 <= j < |lines| ==> CleanLine(lines[j]) == []
    decreases |lines|
  {
    if lines == [] then NoHeader
    else if CleanLine(lines[0]) == [] then
      var h := HeaderOf(lines[1..]);
      forall j | 1 <= j < |lines|
        ensures lines[j] == lines[1..][j - 1]
      {
      }
      h
    else match ParseBinaryHeader(CleanLine(lines[0]))
      case None => BadHeader
      case Some(d) => Header(d)
  }

  /** After blank lines, the next line decides the header. */
  lemma {:induction false} HeaderOfSnoc(lines: seq<string>, line: string)
    requires HeaderOf(lines) == NoHeader
    requires CleanLine(line) != []
    ensures HeaderOf(lines + [line]) ==
            match ParseBinaryHeader(CleanLine(line)) case None => BadHeader case Some(d) => Header(d)
    decreases |lines|
  {
    if lines != [] {
      assert (lines + [line])[1..] == lines[1..] + [line];
      HeaderOfSnoc(lines[1..], line);
    } else {
      assert [] + [line] == [line];
    }
  }

  /** Blank lines after blank lines decide nothing yet. */
  lemma HeaderOfBlank(lines: seq<string>, line: string)
    requires HeaderOf(lines) == NoHeader && CleanLine(line) == []
    ensures HeaderOf(lines + [line]) == NoHeader
  {
    var ls := lines + [line];
    forall j | 0 <= j < |ls|
      ensures CleanLine(ls[j]) == []
    {
      if j < |lines| {
        assert ls[j] == lines[j];
      }
    }
  }

  /** The index of the first line that is not blank once the comment is cut (`|ls|` when
      there is none). */
  function FirstContentIndex(ls: seq<string>): (j: nat)
    ensures j <= |ls|
    ensures forall i :: 0 <= i < j ==> CleanLine(ls[i]) == []
    ensures j < |ls| ==> CleanLine(ls[j]) != []
  {
    FirstContentFrom(ls, 0)
  }

  /** `FirstContentIndex` scanning on from line `k`, every line before it known blank. */
  function FirstContentFrom(ls: seq<string>, k: nat): (j: nat)
    requires k <= |ls|
    requires forall i :: 0 <= i < k ==> CleanLine(ls[i]) == []
    ensures k <= j <= |ls|
    ensures forall i :: 0 <= i < j ==> CleanLine(ls[i]) == []
    ensures j < |ls| ==> CleanLine(ls[j]) != []
    decreases |ls| - k
  {
    if k == |ls| || CleanLine(ls[k]) != [] then k
    else FirstContentFrom(ls, k + 1)
  }

  /** The header loop of `readOFF_binary` after reading `lines`, standing at `pos`: `scan` is
      what those lines decide. In a file that starts with the plain lines `ls`, `lines` are
      the first lines of `ls` and the descriptor is its first line that is not blank. */
  ghost predicate HeaderLines(data: seq<byte>, ls: seq<string>, pos: nat, fail: bool, scan: HeaderScan,
                              lines: seq<string>)
  {
    pos <= |data| && HeaderOf(lines) == scan &&
    (TextPrefix(data, ls) && FirstContentIndex(ls) < |ls| ==>
       !fail && |lines| <= FirstContentIndex(ls) + 1 && lines == ls[..|lines|] &&
       pos == |Document(lines)| && (scan.NoHeader? <==> |lines| <= FirstContentIndex(ls)))
  }

  /** One more line read while no line decided the header: the line is the next one of `ls`,
      and it decides the header unless it is blank. */
  lemma HeaderLinesStep(data: seq<byte>, ls: seq<string>, pos: nat, lines: seq<string>,
                        buffer: string, pos': nat, fail': bool)
    requires HeaderLines(data, ls, pos, false, NoHeader, lines) && pos' <= |data|
    requires forall k: nat :: PlainLine(data, pos, k, LINE_SIZE) ==>
               (pos' == EndAfter(data, k) && !fail' &&
                buffer == (var d := CopiedText(data, pos, k, false); d[..WithoutTrailingSpaces(d)]))
    ensures HeaderLines(data, ls, pos', fail', HeaderOf(lines + [buffer]), lines + [buffer])
    ensures CleanLine(buffer) == [] ==> HeaderOf(lines + [buffer]) == NoHeader
    ensures CleanLine(buffer) != [] ==>
              HeaderOf(lines + [buffer]) ==
              match ParseBinaryHeader(CleanLine(buffer)) case None => BadHeader case Some(d) => Header(d)
  {
    if TextPrefix(data, ls) && FirstContentIndex(ls) < |ls| {
      NextPrefixLine(data, ls, lines, pos, buffer, pos', fail');
    }
    if CleanLine(buffer) == [] {
      HeaderOfBlank(lines, buffer);
    } else {
      HeaderOfSnoc(lines, buffer);
    }
  }

  /** `readline` in the header loop of `readOFF_binary`, with what the line means for the
      header. */
  method ReadHeaderText(data: seq<byte>, ghost ls: seq<string>, pos: nat, ghost lines: seq<string>)
    returns (buffer: string, pos': nat, fail': bool)
    requires HeaderLines(data, ls, pos, false, NoHeader, lines)
    ensures HeaderLines(data, ls, pos', fail', HeaderOf(lines + [buffer]), lines + [buffer])
    ensures CleanLine(buffer) == [] ==> HeaderOf(lines + [buffer]) == NoHeader
    ensures CleanLine(buffer) != [] ==>
              HeaderOf(lines + [buffer]) ==
              match ParseBinaryHeader(CleanLine(buffer)) case None => BadHeader case Some(d) => Header(d)
    ensures pos <= pos' && (pos' > pos || fail')
  {
    var ok;
    ok, buffer, pos', fail' := ReadLine(data, pos, false, LINE_SIZE, false);
    HeaderLinesStep(data, ls, pos, lines, buffer, pos', fail');
  }

  /** `readOFF_binary` after the header lines `lines`: `good` says the stream was still good
      after the descriptor line and `start` is where it then stood. Without a descriptor, or
      with one that is no binary descriptor, nothing is read; after a descriptor the flags
      are set and the words from `start` on are read. */
  function BinaryRead(conv: Conv, data: seq<byte>, lines: seq<string>, good: bool, start: nat): (o: Outcome)
    ensures o.ok ==> HeaderOf(lines).Header? && good
    ensures o.ok ==> |o.vertices| > 0 && |o.faces| > 0
    ensures forall i :: 0 <= i < |o.faces| ==> ValidFace(o.faces[i], |o.vertices|)
  {
    match HeaderOf(lines)
    case Header(d) =>
      if good && start <= |data| then BinaryBody(conv, WordsFrom(data, start), d)
      else Outcome(false, d, 3, [], [])
    case _ => Outcome(false, NO_FLAGS, 3, [], [])
  }

  /** The mesh an outcome holds: the binary reader never sets the face-colour flag. */
  function OutcomeMesh(o: Outcome): Mesh
  {
    Mesh(o.vertices, o.faces, o.flags.texcoords, o.flags.colors, o.flags.normals, false)
  }

  // ---------------------------------------------------------------- reading, step by step

  /** The per-vertex machine in state `st` with counter `indexArg` has stored the first `n`
      of the floats from word `p` on into `v`. */
  ghost predicate VertexReadAt(conv: Conv, ws: seq<U32>, l: Layout, p: nat, n: nat, v: Vertex,
                               st: VertexState, indexArg: nat)
    requires ValidLayout(l)
  {
    Reachable(l, st, indexArg) && n == Cursor(l, st, indexArg) && n <= |Slots(l)| &&
    v == FillFrom(DEFAULT_VERTEX, Slots(l)[..n], FloatsAt(conv, ws, p, |Slots(l)|)[..n], false)
  }

  /** The vertex branch of `readOFF_binary` for one vertex: the per-vertex machine stores
      one float per step into the component its state designates, until it is done. */
  method ReadBinaryVertex(conv: Conv, data: seq<byte>, start: nat, ghost ws: seq<U32>, l: Layout,
                          offset: nat, ghost p: nat)
    returns (v: Vertex, offset': nat)
    requires start <= |data| && ws == WordsFrom(data, start) && ValidLayout(l)
    requires offset == StreamAt(start, ws, p)
    ensures v == VertexOf(l, FloatsAt(conv, ws, p, |Slots(l)|), false)
    ensures offset' == StreamAt(start, ws, p + |Slots(l)|)
  {
    v := DEFAULT_VERTEX;
    var vertexState := VsPosition;
    var indexArg := 0;
    offset' := offset;
    ghost var n := 0;
    while vertexState != VsExit
      invariant VertexReadAt(conv, ws, l, p, n, v, vertexState, indexArg)
      invariant offset' == StreamAt(start, ws, p + n)
      decreases |Slots(l)| - n
    {
      v, vertexState, indexArg, offset' := BinaryVertexStep(conv, data, start, ws, l, p, n, v, vertexState, indexArg, offset');
      n := n + 1;
    }
    ghost var slots, vals := Slots(l), FloatsAt(conv, ws, p, |Slots(l)|);
    assert slots[..|slots|] == slots && vals[..|slots|] == vals;
  }

  /** One turn of the vertex loop: read the next float and let the machine store it. */
  method BinaryVertexStep(conv: Conv, data: seq<byte>, start: nat, ghost ws: seq<U32>, l: Layout,
                          ghost p: nat, ghost n: nat, v: Vertex, st: VertexState, indexArg: nat, offset: nat)
    returns (v': Vertex, st': VertexState, indexArg': nat, offset': nat)
    requires start <= |data| && ws == WordsFrom(data, start) && ValidLayout(l)
    requires VertexReadAt(conv, ws, l, p, n, v, st, indexArg) && st != VsExit
    requires offset == StreamAt(start, ws, p + n)
    ensures VertexReadAt(conv, ws, l, p, n + 1, v', st', indexArg')
    ensures offset' == StreamAt(start, ws, p + n + 1)
  {
    var r;
    r, offset' := ReadFloatWord(conv, data, start, ws, offset, p + n);
    FillAtCursor(l, st, indexArg, FloatsAt(conv, ws, p, |Slots(l)|), false);
    v', st', indexArg' := VertexStep(l, v, st, indexArg, r, false);
  }

  /** One step of the vertex machine stores the next value where the layout says. */
  lemma FillAtCursor(l: Layout, st: VertexState, indexArg: nat, vals: seq<real>, scaleColors: bool)
    requires ValidLayout(l) && Reachable(l, st, indexArg) && st != VsExit && |vals| == |Slots(l)|
    ensures var n := Cursor(l, st, indexArg);
      n < |Slots(l)| &&
      FillFrom(DEFAULT_VERTEX, Slots(l)[..n + 1], vals[..n + 1], scaleColors) ==
      Store(FillFrom(DEFAULT_VERTEX, Slots(l)[..n], vals[..n], scaleColors), CurrentSlot(st, indexArg), vals[n], scaleColors)
  {
    SlotAtCursor(l, st, indexArg);
    FillSnoc(DEFAULT_VERTEX, Slots(l), vals, Cursor(l, st, indexArg), scaleColors);
  }

  /** The face branch of `readOFF_binary` for one face: the index count, then the indices;
      an index that names no vertex is skipped, and a face left with fewer than three
      indices is dropped. */
  method ReadBinaryFace(data: seq<byte>, start: nat, ghost ws: seq<U32>, offset: nat, ghost p: nat,
                        nbVertices: nat)
    returns (face: Option<Face>, offset': nat, ghost p': nat)
    requires start <= |data| && ws == WordsFrom(data, start) && offset == StreamAt(start, ws, p)
    ensures p' == p + 1 + SizeAt(ws, p)
    ensures offset' == StreamAt(start, ws, p')
    ensures var ids := KeptWords(ws, p + 1, SizeAt(ws, p), nbVertices);
      face == if |ids| >= 3 then Some(DEFAULT_FACE.(indices := ids)) else None
  {
    var count;
    count, offset' := ReadWord(data, start, ws, offset, p);
    var nbVertexIndex := ToSizeT(count);
    var vertexIndexList: seq<nat> := [];
    var i: nat := 1;
    while i <= nbVertexIndex
      invariant 1 <= i <= nbVertexIndex + 1
      invariant offset' == StreamAt(start, ws, p + i)
      invariant vertexIndexList == KeptWords(ws, p + 1, i - 1, nbVertices)
      decreases nbVertexIndex + 1 - i
    {
      vertexIndexList, offset' := ReadKeptIndex(data, start, ws, offset', p + 1, i, nbVertices, vertexIndexList);
      i := i + 1;
    }
    p' := p + 1 + nbVertexIndex;
    if |vertexIndexList| < 3 {
      face := None;
    } else {
      face := Some(DEFAULT_FACE.(indices := vertexIndexList));
    }
  }

  /** One face record of `n` still to read, from word `q` on: the face, when kept, is
      appended to `list`. */
  method ReadFaceRecord(data: seq<byte>, start: nat, ghost ws: seq<U32>, offset: nat, ghost q: nat, ghost n: nat,
                        nbVertices: nat, list: seq<Face>)
    returns (list': seq<Face>, offset': nat, ghost q': nat)
    requires start <= |data| && ws == WordsFrom(data, start) && offset == StreamAt(start, ws, q) && n > 0
    ensures q' == q + 1 + SizeAt(ws, q)
    ensures |list| <= |list'| <= |list| + 1 && list'[..|list|] == list
    ensures list' + BinaryFaces(ws, q', n - 1, nbVertices) == list + BinaryFaces(ws, q, n, nbVertices)
    ensures offset' == StreamAt(start, ws, q')
  {
    var face;
    face, offset', q' := ReadBinaryFace(data, start, ws, offset, q, nbVertices);
    FacesStep(ws, q, n, nbVertices, list, face);
    if face.Some? {
      list' := list + [face.value];
    } else {
      list' := list;
    }
  }

  /** One index word of a face record, the `c`-th from word `q` on: kept when it names one of
      the `nbVertices` vertices, skipped otherwise. */
  method ReadKeptIndex(data: seq<byte>, start: nat, ghost ws: seq<U32>, offset: nat, ghost q: nat, c: nat,
                       nbVertices: nat, ids: seq<nat>)
    returns (ids': seq<nat>, offset': nat)
    requires start <= |data| && ws == WordsFrom(data, start) && c > 0
    requires offset == StreamAt(start, ws, q + c - 1) && ids == KeptWords(ws, q, c - 1, nbVertices)
    ensures ids' == KeptWords(ws, q, c, nbVertices)
    ensures offset' == StreamAt(start, ws, q + c)
  {
    var w;
    w, offset' := ReadWord(data, start, ws, offset, q + c - 1);
    var indexTmp := ToSizeT(w);
    if indexTmp >= nbVertices {
      ids' := ids;
    } else {
      ids' := ids + [indexTmp];
    }
  }

  /** The header loop of `readOFF_binary`: blank lines are skipped and the first other line
      must be a binary descriptor. */
  method ReadHeaderLines(data: seq<byte>, ghost ls: seq<string>)
    returns (found: bool, d: Descriptor, pos: nat, fail: bool, ghost lines: seq<string>)
    ensures pos <= |data|
    ensures found <==> HeaderOf(lines).Header?
    ensures found ==> HeaderOf(lines) == Header(d)
    ensures TextPrefix(data, ls) && FirstContentIndex(ls) < |ls| ==>
      !fail && lines == ls[..FirstContentIndex(ls) + 1] && pos == |Document(lines)|
  {
    pos, fail, found := 0, false, false;
    d := NO_FLAGS;
    lines := [];
    while !fail && !found
      invariant HeaderLines(data, ls, pos, fail, if found then Header(d) else NoHeader, lines)
      decreases |data| - pos + (if fail then 0 else 1)
    {
      var bad;
      pos, fail, found, bad, d, lines := ReadHeaderLine(data, ls, pos, lines);
      if bad {
        return;
      }
    }
  }

  /** One turn of the header loop of `readOFF_binary`: read a line and, unless it is blank,
      take it as the descriptor: `bad` when it is none, `found` with its flags otherwise. */
  method ReadHeaderLine(data: seq<byte>, ghost ls: seq<string>, pos: nat, ghost lines: seq<string>)
    returns (pos': nat, fail': bool, found: bool, bad: bool, d: Descriptor, ghost lines': seq<string>)
    requires HeaderLines(data, ls, pos, false, NoHeader, lines)
    ensures !(found && bad)
    ensures HeaderLines(data, ls, pos', fail', if found then Header(d) else if bad then BadHeader else NoHeader, lines')
    ensures pos <= pos' && (pos' > pos || fail')
  {
    var buffer;
    buffer, pos', fail' := ReadHeaderText(data, ls, pos, lines);
    lines' := lines + [buffer];
    found, bad, d := false, false, NO_FLAGS;
    var str := CleanLine(buffer);
    if str == [] {
      return;
    }
    var isDescriptor;
    isDescriptor, d := ParseBinaryDescription(str);
    bad := !isDescriptor;
    found := isDescriptor;
  }

  /** The descriptor-line branch of `readOFF_binary`, as its sequence of tests: "BINARY" must
      end the line and "OFF" the trimmed rest; then the prefixes ST, C, N, 4 and n are
      consumed in that order. */
  method ParseBinaryDescription(str: string) returns (found: bool, d: Descriptor)
    ensures found <==> ParseBinaryHeader(str).Some?
    ensures found ==> d == ParseBinaryHeader(str).value
  {
    d := NO_FLAGS;
    if !(|str| >= 6 && str[|str| - 6..] == "BINARY") {
      return false, d;
    }
    var s := Trim(str[..|str| - 6]);
    if |s| < 3 || s[|s| - 3..] != "OFF" {
      return false, d;
    }
    ghost var full := s;
    if |s| >= 2 && s[..2] == "ST" {
      d := d.(texcoords := true);
      s := s[2..];
    }
    if |s| >= 1 && s[0] == 'C' {
      d := d.(colors := true);
      s := s[1..];
    }
    if |s| >= 1 && s[0] == 'N' {
      d := d.(normals := true);
      s := s[1..];
    }
    if |s| >= 1 && s[0] == '4' {
      d := d.(is4 := true);
      s := s[1..];
    }
    if |s| >= 1 && s[0] == 'n' {
      d := d.(nDim := true);
    }
    found := true;
    assert d == Prefixes(full);
  }
}
