/** What `off::Model::writeOFF_binary` (off.cpp) writes: two text lines, the comment and the
    descriptor ending in "OFF BINARY", then the counts, the vertex components and the face
    records as big-endian 32-bit words; and that `readOFF_binary` reads such a file back. */
module OffBinaryWriter {
  import opened Common
  import opened OffTypes
  import opened OffLine
  import opened OffText
  import opened OffScan
  import opened OffFile
  import opened OffBinary

  // ---------------------------------------------------------------- bytes and words

  /** The byte `fout.write` emits for a character of a `std::string`: its low eight bits. */
  function ByteOfChar(c: char): byte
  {
    (c as int) % 0x100
  }

  /** The bytes of a string as `fout.write(str.c_str(), str.size())` emits them. */
  function AsciiBytes(s: string): (bs: seq<byte>)
    ensures |bs| == |s| && forall i :: 0 <= i < |s| ==> bs[i] == ByteOfChar(s[i])
  {
    seq(|s|, i requires 0 <= i < |s| => ByteOfChar(s[i]))
  }

  /** A string whose characters all fit a byte. */
  predicate Narrow(s: string)
  {
    forall i :: 0 <= i < |s| ==> (s[i] as int) < 0x100
  }

  /** Characters that fit a byte are read back as they were written. */
  lemma AsciiChars(s: string)
    requires Narrow(s)
    ensures Chars(AsciiBytes(s)) == s
  {
  }

  /** The bytes of `writeInt(fout, w, true)` for each value `w` of `ws`, one after the other. */
  function Serialize(ws: seq<int>): (bs: seq<byte>)
    decreases |ws|
  {
    if ws == [] then [] else Serialize(ws[..|ws| - 1]) + WriteInt(ws[|ws| - 1], true)
  }

  /** Each value takes four bytes, and value `i` takes bytes `4 * i` to `4 * i + 4`. */
  lemma {:induction false} SerializeAt(ws: seq<int>, i: nat)
    requires i < |ws|
    ensures |Serialize(ws)| == 4 * |ws|
    ensures Serialize(ws)[4 * i..4 * i + 4] == WriteInt(ws[i], true)
    decreases |ws|
  {
    var n := |ws| - 1;
    if n > 0 {
      SerializeAt(ws[..n], if i < n then i else 0);
    }
    var front := Serialize(ws[..n]);
    assert |front| == 4 * n by {
      if n > 0 {
        SerializeAt(ws[..n], 0);
      }
    }
    if i < n {
      assert Serialize(ws)[4 * i..4 * i + 4] == front[4 * i..4 * i + 4];
      assert ws[..n][i] == ws[i];
    } else {
      assert Serialize(ws)[4 * i..4 * i + 4] == WriteInt(ws[n], true);
    }
  }

  /** The words a reader finds where the values `ws` were written: each value truncated to
      32 bits. */
  function Encoded(ws: seq<int>): (us: seq<U32>)
    ensures |us| == |ws| && forall i :: 0 <= i < |ws| ==> us[i] == ToU32(ws[i])
  {
    seq(|ws|, i requires 0 <= i < |ws| => ToU32(ws[i]))
  }

  /** The word decoded from the bytes of `writeInt` is the value written, truncated. */
  lemma WordOfWriteInt(src: int)
    ensures WordAt(WriteInt(src, true), 0, true) == ToU32(src)
  {
    WordRoundTrip(src, true, [], []);
    assert [] + WriteInt(src, true) + [] == WriteInt(src, true);
    AsInt32Injective(WordAt(WriteInt(src, true), 0, true), ToU32(src));
  }

  lemma AsInt32Injective(a: U32, b: U32)
    requires AsInt32(a) == AsInt32(b)
    ensures a == b
  {
  }

  /** The words from the end of `prefix` on are the values written after it. */
  lemma SerializedWords(prefix: seq<byte>, ws: seq<int>)
    ensures WordsFrom(prefix + Serialize(ws), |prefix|) == Encoded(ws)
  {
    var data := prefix + Serialize(ws);
    if ws != [] {
      SerializeAt(ws, 0);
    }
    var us := WordsFrom(data, |prefix|);
    assert |us| == |ws|;
    forall i | 0 <= i < |ws|
      ensures us[i] == ToU32(ws[i])
    {
      SerializeAt(ws, i);
      var off := |prefix| + 4 * i;
      WordsFromAt(data, |prefix|, i);
      assert data[off..off + 4] == WriteInt(ws[i], true);
      assert data[off..off + 4][0..4] == data[off..off + 4];
      WordOfWriteInt(ws[i]);
    }
  }

  // ---------------------------------------------------------------- the records

  /** The values of a sequence of records, one record after the other. */
  function Concat(xss: seq<seq<int>>): seq<int>
    decreases |xss|
  {
    if xss == [] then [] else xss[0] + Concat(xss[1..])
  }

  /** One more record adds its values at the end. */
  lemma {:induction false} ConcatSnoc(xss: seq<seq<int>>, xs: seq<int>)
    ensures Concat(xss + [xs]) == Concat(xss) + xs
    decreases |xss|
  {
    if xss == [] {
      assert [] + [xs] == [xs];
      assert [xs][1..] == [];
    } else {
      assert (xss + [xs])[1..] == xss[1..] + [xs];
      ConcatSnoc(xss[1..], xs);
      AppendAssoc(xss[0], Concat(xss[1..]), xs);
    }
  }

  /** Records of one width `w`: value `j` of record `i` is value `i * w + j` of all. */
  lemma {:induction false} ConcatUniform(xss: seq<seq<int>>, w: nat, i: nat, j: nat)
    requires forall k :: 0 <= k < |xss| ==> |xss[k]| == w
    requires i < |xss| && j < w
    ensures |Concat(xss)| == |xss| * w
    ensures i * w + j < |Concat(xss)| && Concat(xss)[i * w + j] == xss[i][j]
    decreases |xss|
  {
    ConcatLength(xss, w);
    if i > 0 {
      ConcatUniform(xss[1..], w, i - 1, j);
      assert i * w + j == w + ((i - 1) * w + j);
    }
  }

  lemma {:induction false} ConcatLength(xss: seq<seq<int>>, w: nat)
    requires forall k :: 0 <= k < |xss| ==> |xss[k]| == w
    ensures |Concat(xss)| == |xss| * w
    decreases |xss|
  {
    if xss != [] {
      ConcatLength(xss[1..], w);
      assert |xss| * w == w + (|xss| - 1) * w;
    }
  }

  /** The bit patterns `writeFloat` writes for the values. */
  function FloatWords(conv: Conv, vals: seq<real>): (ws: seq<int>)
    ensures |ws| == |vals| && forall i :: 0 <= i < |vals| ==> ws[i] == conv.bitsOfFloat(vals[i])
  {
    seq(|vals|, i requires 0 <= i < |vals| => conv.bitsOfFloat(vals[i]) as int)
  }

  /** The words of one vertex: the floats of its position, then of its normal, colour and
      texture coordinate as the flags ask. */
  function VertexWords(conv: Conv, v: Vertex, d: Descriptor): seq<int>
  {
    FloatWords(conv, VertexValues(v, d))
  }

  function VertexRecords(conv: Conv, vs: seq<Vertex>, d: Descriptor): (rs: seq<seq<int>>)
    ensures |rs| == |vs| && forall i :: 0 <= i < |vs| ==> rs[i] == VertexWords(conv, vs[i], d)
  {
    seq(|vs|, i requires 0 <= i < |vs| => VertexWords(conv, vs[i], d))
  }

  /** The words of one face: the index count, the indices and, with face colours, either the
      colour's four floats or, for a colour-map entry, its index. */
  function FaceWords(conv: Conv, f: Face, faceColors: bool): seq<int>
  {
    [|f.indices| as int] + f.indices +
    (if !faceColors then []
     else if f.colormapIndex == NO_COLORMAP then FloatWords(conv, [f.color.x, f.color.y, f.color.z, f.color.w])
     else [f.colormapIndex as int])
  }

  function FaceRecords(conv: Conv, fs: seq<Face>, faceColors: bool): (rs: seq<seq<int>>)
    ensures |rs| == |fs| && forall i :: 0 <= i < |fs| ==> rs[i] == FaceWords(conv, fs[i], faceColors)
  {
    seq(|fs|, i requires 0 <= i < |fs| => FaceWords(conv, fs[i], faceColors))
  }

  /** The words `writeOFF_binary` writes after the two text lines: the vertex and face counts,
      0 edges, the vertices, the faces. */
  function BinaryWords(conv: Conv, m: Mesh): seq<int>
  {
    [|m.vertices|, |m.faces|, 0] +
    Concat(VertexRecords(conv, m.vertices, WriterDescriptor(m))) +
    Concat(FaceRecords(conv, m.faces, m.faceColors))
  }

  /** The two text lines of `writeOFF_binary`. */
  function BinaryHeaderLines(m: Mesh): seq<string>
  {
    [WRITER_COMMENT, BinaryDescriptorText(WriterDescriptor(m))]
  }

  /** Everything `writeOFF_binary` writes for a mesh with vertices and faces. */
  function WrittenBinary(conv: Conv, m: Mesh): seq<byte>
  {
    AsciiBytes(Document(BinaryHeaderLines(m))) + Serialize(BinaryWords(conv, m))
  }

  // ---------------------------------------------------------------- writing, step by step

  /** One more word makes four more bytes. */
  lemma SerializeSnoc(ws: seq<int>, w: int)
    ensures Serialize(ws + [w]) == Serialize(ws) + WriteInt(w, true)
  {
    assert (ws + [w])[..|ws|] == ws;
  }

  lemma AsciiBytesAppend(a: string, b: string)
    ensures AsciiBytes(a + b) == AsciiBytes(a) + AsciiBytes(b)
  {
  }

  /** The two header lines of `writeOFF_binary`, each ended by a newline. */
  lemma TwoLines(a: string, b: string)
    ensures Document([a, b]) == a + "\n" + b + "\n"
  {
    assert [a, b][..1] == [a] && [a][..0] == [];
    assert Document([a]) == a + "\n";
  }

  /** `fout.write(str)` of the comment line, then of the descriptor line with the flags of `d`
      and "OFF BINARY". */
  method BinaryHeaderBytes(d: Descriptor) returns (out: seq<byte>)
    ensures out == AsciiBytes(Document([WRITER_COMMENT, BinaryDescriptorText(d)]))
  {
    var str := WRITER_COMMENT + "\n";
    out := AsciiBytes(str);
    str := "";
    if d.texcoords {
      str := str + "ST";
    }
    if d.colors {
      str := str + "C";
    }
    if d.normals {
      str := str + "N";
    }
    str := str + "OFF BINARY";
    assert str == BinaryDescriptorText(d);
    str := str + "\n";
    AsciiBytesAppend(WRITER_COMMENT + "\n", str);
    out := out + AsciiBytes(str);
    TwoLines(WRITER_COMMENT, BinaryDescriptorText(d));
    AppendAssoc(WRITER_COMMENT + "\n", BinaryDescriptorText(d), "\n");
  }

  /** The bytes of words written one run after another. */
  lemma {:induction false} SerializeAppend(a: seq<int>, b: seq<int>)
    ensures Serialize(a + b) == Serialize(a) + Serialize(b)
    decreases |b|
  {
    if b == [] {
      assert a + b == a;
    } else {
      var b', w := b[..|b| - 1], b[|b| - 1];
      assert b == b' + [w];
      assert a + b == (a + b') + [w];
      SerializeSnoc(a + b', w);
      SerializeAppend(a, b');
      SerializeSnoc(b', w);
      AppendAssoc(Serialize(a), Serialize(b'), WriteInt(w, true));
    }
  }

  /** Bytes `more` written after `out + Serialize(a)` are `Serialize(a + b)` when they are
      `Serialize(b)`. */
  lemma WrittenAfter(out: seq<byte>, a: seq<int>, b: seq<int>)
    ensures out + Serialize(a) + Serialize(b) == out + Serialize(a + b)
  {
    SerializeAppend(a, b);
    AppendAssoc(out, Serialize(a), Serialize(b));
  }

  /** The words of floats written one group after another. */
  lemma FloatWordsAppend(conv: Conv, a: seq<real>, b: seq<real>)
    ensures FloatWords(conv, a + b) == FloatWords(conv, a) + FloatWords(conv, b)
  {
  }

  /** Floats written after floats. */
  lemma FloatsAfter(conv: Conv, out: seq<byte>, a: seq<real>, b: seq<real>)
    ensures out + Serialize(FloatWords(conv, a)) + Serialize(FloatWords(conv, b)) ==
            out + Serialize(FloatWords(conv, a + b))
  {
    FloatWordsAppend(conv, a, b);
    WrittenAfter(out, FloatWords(conv, a), FloatWords(conv, b));
  }

  /** The words of a face: the count, the indices, then the colour words. */
  lemma FaceWordsParts(conv: Conv, f: Face, faceColors: bool, tail: seq<int>)
    requires tail == if !faceColors then []
      else if f.colormapIndex == NO_COLORMAP then FloatWords(conv, [f.color.x, f.color.y, f.color.z, f.color.w])
      else [f.colormapIndex as int]
    ensures [|f.indices|] + f.indices + tail == FaceWords(conv, f, faceColors)
  {
  }

  /** One more index of the face record. */
  lemma IndicesSnoc(pre: seq<int>, ids: seq<nat>, j: nat)
    requires j < |ids|
    ensures pre + ids[..j] + [ids[j]] == pre + ids[..j + 1]
  {
    AppendAssoc(pre, ids[..j], [ids[j]]);
    assert ids[..j] + [ids[j]] == ids[..j + 1];
  }

  /** One more vertex record. */
  lemma VertexRecordsSnoc(conv: Conv, vs: seq<Vertex>, d: Descriptor, i: nat)
    requires i < |vs|
    ensures Concat(VertexRecords(conv, vs[..i], d)) + VertexWords(conv, vs[i], d) ==
            Concat(VertexRecords(conv, vs[..i + 1], d))
  {
    assert VertexRecords(conv, vs[..i + 1], d) == VertexRecords(conv, vs[..i], d) + [VertexWords(conv, vs[i], d)];
    ConcatSnoc(VertexRecords(conv, vs[..i], d), VertexWords(conv, vs[i], d));
  }

  /** One more face record. */
  lemma FaceRecordsSnoc(conv: Conv, fs: seq<Face>, faceColors: bool, i: nat)
    requires i < |fs|
    ensures Concat(FaceRecords(conv, fs[..i], faceColors)) + FaceWords(conv, fs[i], faceColors) ==
            Concat(FaceRecords(conv, fs[..i + 1], faceColors))
  {
    assert FaceRecords(conv, fs[..i + 1], faceColors) == FaceRecords(conv, fs[..i], faceColors) + [FaceWords(conv, fs[i], faceColors)];
    ConcatSnoc(FaceRecords(conv, fs[..i], faceColors), FaceWords(conv, fs[i], faceColors));
  }

  /** `writeInt(fout, w, true)`: the four bytes of the big-endian word of `w`. */
  method PutWord(out: seq<byte>, w: int) returns (out': seq<byte>)
    ensures out' == out + Serialize([w])
  {
    out' := out + WriteInt(w, true);
    assert [w][..0] == [];
  }

  /** `writeFloat(fout, r, true)`: the four bytes of the big-endian bits of `r`. */
  method PutFloat(conv: Conv, out: seq<byte>, r: real) returns (out': seq<byte>)
    ensures out' == out + Serialize(FloatWords(conv, [r]))
  {
    out' := out + WriteFloat(conv, r, true);
    assert FloatWords(conv, [r]) == [conv.bitsOfFloat(r) as int];
    assert [conv.bitsOfFloat(r) as int][..0] == [];
  }

  /** Two to four `writeFloat` calls in a row. */
  method PutFloats(conv: Conv, out: seq<byte>, group: seq<real>) returns (out': seq<byte>)
    requires 2 <= |group| <= 4
    ensures out' == out + Serialize(FloatWords(conv, group))
  {
    out' := PutFloat(conv, out, group[0]);
    assert [group[0]] == group[..1];
    out' := PutFloat(conv, out', group[1]);
    FloatsAfter(conv, out, group[..1], [group[1]]);
    assert group[..1] + [group[1]] == group[..2];
    if |group| > 2 {
      out' := PutFloat(conv, out', group[2]);
      FloatsAfter(conv, out, group[..2], [group[2]]);
      assert group[..2] + [group[2]] == group[..3];
    }
    if |group| > 3 {
      out' := PutFloat(conv, out', group[3]);
      FloatsAfter(conv, out, group[..3], [group[3]]);
      assert group[..3] + [group[3]] == group[..4];
    }
    assert group[..|group|] == group;
  }

  /** The vertex record of `writeOFF_binary`: the position, then the normal, the colour and
      the texture coordinate as the flags ask. */
  method PutVertex(conv: Conv, out: seq<byte>, v: Vertex, d: Descriptor) returns (out': seq<byte>)
    ensures out' == out + Serialize(VertexWords(conv, v, d))
  {
    ghost var normal := if d.normals then [v.normal.x, v.normal.y, v.normal.z] else [];
    ghost var color := if d.colors then [v.color.x, v.color.y, v.color.z, v.color.w] else [];
    ghost var texcoord := if d.texcoords then [v.texcoord.x, v.texcoord.y] else [];
    out' := PutFloats(conv, out, [v.position.x, v.position.y, v.position.z]);
    ghost var done := [v.position.x, v.position.y, v.position.z];
    if d.normals {
      out' := PutFloats(conv, out', [v.normal.x, v.normal.y, v.normal.z]);
      FloatsAfter(conv, out, done, normal);
    } else {
      assert done + normal == done;
    }
    done := done + normal;
    if d.colors {
      out' := PutFloats(conv, out', [v.color.x, v.color.y, v.color.z, v.color.w]);
      FloatsAfter(conv, out, done, color);
    } else {
      assert done + color == done;
    }
    done := done + color;
    if d.texcoords {
      out' := PutFloats(conv, out', [v.texcoord.x, v.texcoord.y]);
      FloatsAfter(conv, out, done, texcoord);
    } else {
      assert done + texcoord == done;
    }
    done := done + texcoord;
    assert done == VertexValues(v, d);
  }

  /** The face record of `writeOFF_binary`: the index count, the indices and, with face
      colours, the colour's four floats or the colour-map index. */
  method PutFace(conv: Conv, out: seq<byte>, f: Face, faceColors: bool) returns (out': seq<byte>)
    ensures out' == out + Serialize(FaceWords(conv, f, faceColors))
  {
    var nbIndex := |f.indices|;
    out' := PutWord(out, nbIndex);
    ghost var pre: seq<int> := [nbIndex];
    assert pre + f.indices[..0] == pre;
    for j := 0 to nbIndex
      invariant out' == out + Serialize(pre + f.indices[..j])
    {
      out' := PutWord(out', f.indices[j]);
      WrittenAfter(out, pre + f.indices[..j], [f.indices[j]]);
      IndicesSnoc(pre, f.indices, j);
    }
    assert f.indices[..nbIndex] == f.indices;
    ghost var tail := if !faceColors then []
      else if f.colormapIndex == NO_COLORMAP then FloatWords(conv, [f.color.x, f.color.y, f.color.z, f.color.w])
      else [f.colormapIndex as int];
    if faceColors {
      if f.colormapIndex == NO_COLORMAP {
        out' := PutFloats(conv, out', [f.color.x, f.color.y, f.color.z, f.color.w]);
      } else {
        out' := PutWord(out', f.colormapIndex);
      }
    }
    WrittenAfter(out, pre + f.indices, tail);
    FaceWordsParts(conv, f, faceColors, tail);
  }

  /** The vertex loop of `writeOFF_binary`. */
  method PutVertices(conv: Conv, out: seq<byte>, vs: seq<Vertex>, d: Descriptor) returns (out': seq<byte>)
    ensures out' == out + Serialize(Concat(VertexRecords(conv, vs, d)))
  {
    out' := out;
    for i := 0 to |vs|
      invariant out' == out + Serialize(Concat(VertexRecords(conv, vs[..i], d)))
    {
      out' := PutVertex(conv, out', vs[i], d);
      WrittenAfter(out, Concat(VertexRecords(conv, vs[..i], d)), VertexWords(conv, vs[i], d));
      VertexRecordsSnoc(conv, vs, d, i);
    }
    assert vs[..|vs|] == vs;
  }

  /** The face loop of `writeOFF_binary`. */
  method PutFaces(conv: Conv, out: seq<byte>, fs: seq<Face>, faceColors: bool) returns (out': seq<byte>)
    ensures out' == out + Serialize(Concat(FaceRecords(conv, fs, faceColors)))
  {
    out' := out;
    for i := 0 to |fs|
      invariant out' == out + Serialize(Concat(FaceRecords(conv, fs[..i], faceColors)))
    {
      out' := PutFace(conv, out', fs[i], faceColors);
      WrittenAfter(out, Concat(FaceRecords(conv, fs[..i], faceColors)), FaceWords(conv, fs[i], faceColors));
      FaceRecordsSnoc(conv, fs, faceColors, i);
    }
    assert fs[..|fs|] == fs;
  }

  // ---------------------------------------------------------------- reading it back

  /** The binary descriptor line is a plain line. */
  lemma BinaryDescriptorPlain(d: Descriptor)
    ensures PlainText(BinaryDescriptorText(d)) && Narrow(BinaryDescriptorText(d))
  {
    var f, tail := Flags(d), "OFF BINARY";
    var t := BinaryDescriptorText(d);
    assert t == f + tail;
    forall i | 0 <= i < |t|
      ensures PlainChar(t[i]) && (t[i] as int) < 0x100
    {
      if i < |f| {
        assert t[i] in f;
      } else {
        assert t[i] == tail[i - |f|];
      }
    }
    assert t[|t| - 1] == 'Y';
    assert t[0] != ' ' by {
      if f != [] { assert t[0] in f; } else { assert t[0] == 'O'; }
    }
  }

  /** The header lines are plain lines of characters that fit a byte, and the first that is
      not blank is the descriptor. */
  lemma HeaderLinesRead(m: Mesh)
    ensures var ls := BinaryHeaderLines(m);
      Narrow(Document(ls)) && (forall j :: 0 <= j < |ls| ==> PlainText(ls[j])) &&
      FirstContentIndex(ls) == 1 && HeaderOf(ls) == Header(WriterDescriptor(m)) && ls[..2] == ls
  {
    var d := WriterDescriptor(m);
    var ls := BinaryHeaderLines(m);
    assert ls[..2] == ls;
    CommentPlain();
    BinaryDescriptorPlain(d);
    HeaderDocument(d);
    HeaderDecided(d);
  }

  lemma HeaderDocument(d: Descriptor)
    requires Narrow(BinaryDescriptorText(d))
    ensures Narrow(Document([WRITER_COMMENT, BinaryDescriptorText(d)]))
  {
    var ls := [WRITER_COMMENT, BinaryDescriptorText(d)];
    assert ls[..1] == [WRITER_COMMENT] && [WRITER_COMMENT][..0] == [];
    assert Document([WRITER_COMMENT]) == WRITER_COMMENT + "\n";
    var doc := Document(ls);
    assert doc == WRITER_COMMENT + "\n" + BinaryDescriptorText(d) + "\n";
    assert Narrow(WRITER_COMMENT);
  }

  lemma HeaderDecided(d: Descriptor)
    requires Writable(d)
    ensures FirstContentIndex([WRITER_COMMENT, BinaryDescriptorText(d)]) == 1
    ensures HeaderOf([WRITER_COMMENT, BinaryDescriptorText(d)]) == Header(d)
  {
    var ls := [WRITER_COMMENT, BinaryDescriptorText(d)];
    WriterCommentIsBlank();
    BinaryDescriptorRoundTrip(d);
    assert ls[1..] == [BinaryDescriptorText(d)];
    assert FirstContentFrom(ls, 1) == 1;
    assert HeaderOf(ls[1..]) == Header(d);
  }

  /** The data starts with the header lines. */
  lemma WrittenPrefix(conv: Conv, m: Mesh)
    ensures TextPrefix(WrittenBinary(conv, m), BinaryHeaderLines(m))
  {
    var ls := BinaryHeaderLines(m);
    var head := AsciiBytes(Document(ls));
    var data := head + Serialize(BinaryWords(conv, m));
    HeaderLinesRead(m);
    assert data[..|Document(ls)|] == head;
    AsciiChars(Document(ls));
  }

  /** A value `writeFloat` then `readFloat` give back. */
  predicate FloatExact(conv: Conv, r: real)
  {
    conv.floatOfBits(conv.bitsOfFloat(r)) == r
  }

  /** A mesh `writeOFF_binary` writes and `readOFF_binary` reads back unchanged: counts that
      fit an `int`, no face colours (the binary reader reads none), vertices whose written
      floats are exact and say everything about them, and faces of at most 2^31 - 1 indices
      that carry nothing but their indices. */
  predicate BinaryWritable(conv: Conv, m: Mesh)
  {
    var d := WriterDescriptor(m);
    0 < |m.vertices| < INT32_LIMIT && 0 < |m.faces| < INT32_LIMIT && !m.faceColors &&
    (forall i :: 0 <= i < |m.vertices| ==>
       Describes(m.vertices[i], d) &&
       forall j :: 0 <= j < |VertexValues(m.vertices[i], d)| ==> FloatExact(conv, VertexValues(m.vertices[i], d)[j])) &&
    (forall i :: 0 <= i < |m.faces| ==>
       ValidFace(m.faces[i], |m.vertices|) && |m.faces[i].indices| < INT32_LIMIT &&
       m.faces[i] == DEFAULT_FACE.(indices := m.faces[i].indices))
  }

  /** Small values survive the trip through a word. */
  lemma SmallWord(x: int)
    requires 0 <= x < INT32_LIMIT
    ensures SizeAt([ToU32(x)], 0) == x
  {
  }

  /** All indices below `nbVertices` are kept, in order. */
  lemma {:induction false} KeptAll(us: seq<U32>, q: nat, ids: seq<nat>, c: nat, nbVertices: nat)
    requires c <= |ids| && q + |ids| <= |us| && nbVertices <= INT32_LIMIT
    requires forall t :: 0 <= t < |ids| ==> ids[t] < nbVertices && us[q + t] == ToU32(ids[t])
    ensures KeptWords(us, q, c, nbVertices) == ids[..c]
    decreases c
  {
    if c > 0 {
      KeptAll(us, q, ids, c - 1, nbVertices);
      assert SizeAt(us, q + c - 1) == ids[c - 1];
      assert ids[..c] == ids[..c - 1] + [ids[c - 1]];
    }
  }

  /** The face records written for `fs` are read back as `fs`. */
  lemma {:induction false} FacesReadBack(conv: Conv, us: seq<U32>, q: nat, fs: seq<Face>, nbVertices: nat)
    requires nbVertices < INT32_LIMIT
    requires forall i :: 0 <= i < |fs| ==>
      ValidFace(fs[i], nbVertices) && |fs[i].indices| < INT32_LIMIT && fs[i] == DEFAULT_FACE.(indices := fs[i].indices)
    requires var ws := Concat(FaceRecords(conv, fs, false));
      q + |ws| <= |us| && forall t :: 0 <= t < |ws| ==> us[q + t] == ToU32(ws[t])
    ensures BinaryFaces(us, q, |fs|, nbVertices) == fs
    decreases |fs|
  {
    if fs != [] {
      var f := fs[0];
      var ids := f.indices;
      var rs := FaceRecords(conv, fs, false);
      assert rs[1..] == FaceRecords(conv, fs[1..], false);
      var rest := Concat(rs[1..]);
      var ws := Concat(rs);
      assert rs[0] == FaceWords(conv, f, false) == [|ids| as int] + ids + [];
      assert ws == [|ids| as int] + ids + rest;
      assert ws[0] == |ids|;
      forall t | 0 <= t < |ids|
        ensures us[q + 1 + t] == ToU32(ids[t])
      {
        assert ws[1 + t] == ids[t];
      }
      FirstFaceReadBack(us, q, f, |fs|, nbVertices);
      var q' := q + 1 + |ids|;
      forall t | 0 <= t < |rest|
        ensures us[q' + t] == ToU32(rest[t])
      {
        assert ws[1 + |ids| + t] == rest[t];
      }
      FacesReadBack(conv, us, q', fs[1..], nbVertices);
      assert fs == [f] + fs[1..];
    }
  }

  /** A face record written for `f` at word `q` is read back as `f`, and the next record
      starts after its indices. */
  lemma FirstFaceReadBack(us: seq<U32>, q: nat, f: Face, n: nat, nbVertices: nat)
    requires n > 0 && nbVertices < INT32_LIMIT
    requires ValidFace(f, nbVertices) && |f.indices| < INT32_LIMIT && f == DEFAULT_FACE.(indices := f.indices)
    requires q + 1 + |f.indices| <= |us| && us[q] == ToU32(|f.indices|)
    requires forall t :: 0 <= t < |f.indices| ==> us[q + 1 + t] == ToU32(f.indices[t])
    ensures BinaryFaces(us, q, n, nbVertices) == [f] + BinaryFaces(us, q + 1 + |f.indices|, n - 1, nbVertices)
  {
    var ids := f.indices;
    assert SizeAt(us, q) == |ids|;
    KeptAll(us, q + 1, ids, |ids|, nbVertices);
    assert ids[..|ids|] == ids;
  }

  /** The writer's vertex values fill the components of the writer's layout exactly. */
  lemma WriterWidth(v: Vertex, d: Descriptor)
    ensures |Slots(WriterLayout(d))| == |VertexValues(v, d)|
  {
  }

  /** The vertex records written for `vs` are read back as `vs`. */
  lemma VerticesReadBack(conv: Conv, us: seq<U32>, vs: seq<Vertex>, d: Descriptor)
    requires forall i :: 0 <= i < |vs| ==>
      Describes(vs[i], d) &&
      forall j :: 0 <= j < |VertexValues(vs[i], d)| ==> FloatExact(conv, VertexValues(vs[i], d)[j])
    requires var ws := Concat(VertexRecords(conv, vs, d));
      3 + |ws| <= |us| && forall t :: 0 <= t < |ws| ==> us[3 + t] == ToU32(ws[t])
    ensures BinaryVertices(conv, us, WriterLayout(d), 3, |vs|) == vs
  {
    var k := |Slots(WriterLayout(d))|;
    var rs := VertexRecords(conv, vs, d);
    forall m | 0 <= m < |vs|
      ensures |rs[m]| == k
    {
      WriterWidth(vs[m], d);
    }
    forall i | 0 <= i < |vs|
      ensures BinaryVertex(conv, us, WriterLayout(d), 3, i) == vs[i]
    {
      VertexReadBack(conv, us, rs, vs[i], d, i, k);
    }
  }

  /** Record `i` of the vertex words, written for `v`, is read back as `v`. */
  lemma VertexReadBack(conv: Conv, us: seq<U32>, rs: seq<seq<int>>, v: Vertex, d: Descriptor, i: nat, k: nat)
    requires k == |Slots(WriterLayout(d))| && i < |rs| && rs[i] == VertexWords(conv, v, d)
    requires forall m :: 0 <= m < |rs| ==> |rs[m]| == k
    requires Describes(v, d) &&
      forall j :: 0 <= j < |VertexValues(v, d)| ==> FloatExact(conv, VertexValues(v, d)[j])
    requires 3 + |Concat(rs)| <= |us| && forall t :: 0 <= t < |Concat(rs)| ==> us[3 + t] == ToU32(Concat(rs)[t])
    ensures BinaryVertex(conv, us, WriterLayout(d), 3, i) == v
  {
    var vals := VertexValues(v, d);
    WriterWidth(v, d);
    forall j | 0 <= j < k
      ensures FloatsAt(conv, us, 3 + i * k, k)[j] == vals[j]
    {
      ConcatUniform(rs, k, i, j);
      assert us[3 + (i * k + j)] == ToU32(rs[i][j]);
      assert rs[i][j] == conv.bitsOfFloat(vals[j]);
      assert FloatExact(conv, vals[j]);
    }
    assert FloatsAt(conv, us, 3 + i * k, k) == vals;
    VertexValuesRead(v, d, false);
  }

  /** The words `writeOFF_binary` writes for a mesh it can carry are read back as that mesh. */
  lemma WordsReadBack(conv: Conv, m: Mesh)
    requires BinaryWritable(conv, m)
    ensures BinaryBody(conv, Encoded(BinaryWords(conv, m)), WriterDescriptor(m)) ==
            Outcome(true, WriterDescriptor(m), 3, m.vertices, m.faces)
  {
    var d := WriterDescriptor(m);
    var us := Encoded(BinaryWords(conv, m));
    var vs, fs := m.vertices, m.faces;
    var q := Skip(3, |vs|, |Slots(WriterLayout(d))|);
    WordsLayout(conv, m, us, Concat(VertexRecords(conv, vs, d)), Concat(FaceRecords(conv, fs, false)));
    VerticesReadBack(conv, us, vs, d);
    FacesReadBack(conv, us, q, fs, |vs|);
    ListsReadBack(conv, us, d, vs, fs, q);
  }

  /** Where the runs of the written words sit: the counts first, the vertex records from
      word 3 on and the face records right after them, at the word the reader skips to. */
  lemma WordsLayout(conv: Conv, m: Mesh, us: seq<U32>, vw: seq<int>, fw: seq<int>)
    requires |m.vertices| < INT32_LIMIT && |m.faces| < INT32_LIMIT && !m.faceColors
    requires us == Encoded(BinaryWords(conv, m))
    requires vw == Concat(VertexRecords(conv, m.vertices, WriterDescriptor(m)))
    requires fw == Concat(FaceRecords(conv, m.faces, false))
    ensures SizeAt(us, 0) == |m.vertices| && SizeAt(us, 1) == |m.faces| && |us| == 3 + |vw| + |fw|
    ensures Skip(3, |m.vertices|, |Slots(WriterLayout(WriterDescriptor(m)))|) == 3 + |vw|
    ensures forall t :: 0 <= t < |vw| ==> us[3 + t] == ToU32(vw[t])
    ensures forall t :: 0 <= t < |fw| ==> us[3 + |vw| + t] == ToU32(fw[t])
  {
    var d := WriterDescriptor(m);
    var vs, fs := m.vertices, m.faces;
    var ws := BinaryWords(conv, m);
    assert ws == [|vs|, |fs|, 0] + vw + fw;
    forall t | 0 <= t < |vw|
      ensures us[3 + t] == ToU32(vw[t])
    {
      assert ws[3 + t] == vw[t];
    }
    forall t | 0 <= t < |fw|
      ensures us[3 + |vw| + t] == ToU32(fw[t])
    {
      assert ws[3 + |vw| + t] == fw[t];
    }
    VertexWordsLength(conv, vs, d);
  }

  /** Every vertex record of the writer is as wide as the writer's layout. */
  lemma VertexWordsLength(conv: Conv, vs: seq<Vertex>, d: Descriptor)
    ensures |Concat(VertexRecords(conv, vs, d))| == |vs| * |Slots(WriterLayout(d))|
  {
    var k := |Slots(WriterLayout(d))|;
    forall i | 0 <= i < |vs|
      ensures |VertexRecords(conv, vs, d)[i]| == k
    {
      WriterWidth(vs[i], d);
    }
    ConcatLength(VertexRecords(conv, vs, d), k);
  }

  /** Once the counts, the vertices and the faces (from word `q` on) read back, so does the
      whole body. */
  lemma ListsReadBack(conv: Conv, us: seq<U32>, d: Descriptor, vs: seq<Vertex>, fs: seq<Face>, q: nat)
    requires !d.nDim && !d.is4 && |vs| > 0 && |fs| > 0
    requires SizeAt(us, 0) == |vs| && SizeAt(us, 1) == |fs|
    requires BinaryVertices(conv, us, WriterLayout(d), 3, |vs|) == vs
    requires q == Skip(3, |vs|, |Slots(WriterLayout(d))|) && BinaryFaces(us, q, |fs|, |vs|) == fs
    ensures BinaryBody(conv, us, d) == Outcome(true, d, 3, vs, fs)
  {
    var p, l := Bit(d.nDim), Layout(3, d.is4, d.normals, d.colors, d.texcoords);
    assert p == 0 && l == WriterLayout(d);
    ListsValue(conv, us, d, 3, vs, fs, q);
    assert BinaryDim(us, d) == Some(3);
  }

  /** `BinaryLists` once its vertex and face reads are known. */
  lemma ListsValue(conv: Conv, us: seq<U32>, d: Descriptor, nbDim: nat, vs: seq<Vertex>, fs: seq<Face>, q: nat)
    requires 1 <= nbDim <= 4 && |vs| > 0 && |fs| > 0
    requires var p, l := Bit(d.nDim), Layout(nbDim, d.is4, d.normals, d.colors, d.texcoords);
      SizeAt(us, p) == |vs| && SizeAt(us, p + 1) == |fs| &&
      BinaryVertices(conv, us, l, p + 3, |vs|) == vs &&
      q == Skip(p + 3, |vs|, |Slots(l)|) && BinaryFaces(us, q, |fs|, |vs|) == fs
    ensures BinaryLists(conv, us, d, nbDim) == Outcome(true, d, if d.nDim then nbDim else 3, vs, fs)
  {
  }

  /** What `writeOFF_binary` writes for a mesh it can carry, `readOFF_binary` reads back: the
      data starts with the two header lines, the second decides the header, and the reader
      accepts the file with the same vertices, faces and flags. */
  lemma BinaryRoundTrip(conv: Conv, m: Mesh)
    requires BinaryWritable(conv, m)
    ensures var data, ls := WrittenBinary(conv, m), BinaryHeaderLines(m);
      TextPrefix(data, ls) && FirstContentIndex(ls) < |ls| && ls[..FirstContentIndex(ls) + 1] == ls
    ensures var data, ls := WrittenBinary(conv, m), BinaryHeaderLines(m);
      var o := BinaryRead(conv, data, ls, true, |Document(ls)|);
      o.ok && OutcomeMesh(o) == m
  {
    var ls := BinaryHeaderLines(m);
    WrittenPrefix(conv, m);
    HeaderLinesRead(m);
    WrittenRead(conv, m);
  }

  /** Reading the body that follows the header lines gives back the mesh. */
  lemma WrittenRead(conv: Conv, m: Mesh)
    requires BinaryWritable(conv, m)
    ensures var data, ls := WrittenBinary(conv, m), BinaryHeaderLines(m);
      var o := BinaryRead(conv, data, ls, true, |Document(ls)|);
      o.ok && OutcomeMesh(o) == m
  {
    var ls := BinaryHeaderLines(m);
    var head := AsciiBytes(Document(ls));
    HeaderLinesRead(m);
    SerializedWords(head, BinaryWords(conv, m));
    WordsReadBack(conv, m);
  }
  // ---------------------------------------------------------------- face colours

  /** A face over the first three vertices, coloured by colour-map entry 1. */
  const MAPPED_FACE := DEFAULT_FACE.(indices := [0, 1, 2], colormapIndex := 1)

  /** As written, `writeOFF_binary` follows each face's indices with its colour, which
      `readOFF_binary` takes for the index count of the next face: of two faces coloured by
      colour-map entry 1, the reader reads the second one's count as 1 and its one index as 3,
      out of range, and finds only the first face. */
  lemma ColouredFacesMisread(conv: Conv)
    ensures BinaryFaces(Encoded(Concat(FaceRecords(conv, [MAPPED_FACE, MAPPED_FACE], true))), 0, 2, 3) ==
            [DEFAULT_FACE.(indices := [0, 1, 2])]
  {
    var rs := FaceRecords(conv, [MAPPED_FACE, MAPPED_FACE], true);
    assert rs[0] == [3, 0, 1, 2, 1] && rs[1] == [3, 0, 1, 2, 1];
    assert Concat(rs) == [3, 0, 1, 2, 1, 3, 0, 1, 2, 1] by {
      assert rs[1..][1..] == [] && rs[1..][0] == rs[1];
      assert Concat(rs[1..]) == rs[1] + Concat([]);
      assert Concat(rs) == rs[0] + Concat(rs[1..]);
    }
    var us := Encoded(Concat(rs));
    assert us == [3, 0, 1, 2, 1, 3, 0, 1, 2, 1];
    assert SizeAt(us, 0) == 3 && SizeAt(us, 4) == 1;
    assert KeptWords(us, 1, 3, 3) == [0, 1, 2] by {
      assert SizeAt(us, 1) == 0 && SizeAt(us, 2) == 1 && SizeAt(us, 3) == 2;
    }
    assert KeptWords(us, 5, 1, 3) == [] by {
      assert SizeAt(us, 5) == 3;
    }
  }

  /** A mesh as the binary format carries it: each face reduced to its indices, no face
      colours. */
  function Uncoloured(m: Mesh): (u: Mesh)
    ensures |u.faces| == |m.faces| && forall i :: 0 <= i < |m.faces| ==> u.faces[i].indices == m.faces[i].indices
  {
    m.(faces := seq(|m.faces|, i requires 0 <= i < |m.faces| => DEFAULT_FACE.(indices := m.faces[i].indices)),
       faceColors := false)
  }

  /** `writeOFF_binary` corrected to write the face records its reader reads: the index count
      and the indices, without the face colours. */
  function CorrectedBinary(conv: Conv, m: Mesh): seq<byte>
  {
    WrittenBinary(conv, m.(faceColors := false))
  }

  /** What the corrected writer writes, `readOFF_binary` reads back as the mesh without its
      face colours, for face-coloured meshes too. */
  lemma CorrectedRoundTrip(conv: Conv, m: Mesh)
    requires BinaryWritable(conv, Uncoloured(m))
    ensures var ls := BinaryHeaderLines(m);
      var o := BinaryRead(conv, CorrectedBinary(conv, m), ls, true, |Document(ls)|);
      o.ok && OutcomeMesh(o) == Uncoloured(m)
  {
    var u := Uncoloured(m);
    assert FaceRecords(conv, m.faces, false) == FaceRecords(conv, u.faces, false);
    assert BinaryHeaderLines(m) == BinaryHeaderLines(u);
    assert CorrectedBinary(conv, m) == WrittenBinary(conv, u);
    WrittenRead(conv, u);
  }
}
