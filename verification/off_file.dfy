/** Files as `readOFF` sees them through `readline` (off.cpp): a text made of lines, each
    ended by a line feed, and the plain lines that `readline` hands back unchanged. The lines
    `writeOFF` writes are plain when they fit the buffer. */
module OffFile {
  import opened Common
  import opened OffTypes
  import opened OffLine
  import opened OffText
  import opened OffScan

  /** The text of a file whose lines are `ls`, each ended by a line feed. */
  function Document(ls: seq<string>): (s: string)
    ensures |s| >= |ls|
    decreases |ls|
  {
    if ls == [] then [] else Document(ls[..|ls| - 1]) + ls[|ls| - 1] + "\n"
  }

  /** A character `readline` copies as it is (it is no line ending, backslash, NUL or tab). */
  predicate PlainChar(c: char)
  {
    c != '\r' && c != '\n' && c != '\\' && c != '\0' && c != '\t'
  }

  /** A line `readline` hands back unchanged: it fits the 4096-character buffer with its NUL,
      holds only plain characters and neither starts nor ends with a space. */
  predicate PlainText(l: string)
  {
    |l| < LINE_SIZE - 1 && (forall i :: 0 <= i < |l| ==> PlainChar(l[i])) &&
    (l != [] ==> l[0] != ' ' && l[|l| - 1] != ' ')
  }

  /** `data` is the file of the plain lines `ls`. */
  predicate TextFile(data: seq<byte>, ls: seq<string>)
  {
    Chars(data) == Document(ls) && forall j :: 0 <= j < |ls| ==> PlainText(ls[j])
  }

  /** `data` starts with the file of the plain lines `ls`; anything may follow. */
  predicate TextPrefix(data: seq<byte>, ls: seq<string>)
  {
    |Document(ls)| <= |data| && Chars(data[..|Document(ls)|]) == Document(ls) &&
    forall j :: 0 <= j < |ls| ==> PlainText(ls[j])
  }

  /** A text file starts with its own lines. */
  lemma TextFileIsPrefix(data: seq<byte>, ls: seq<string>)
    requires TextFile(data, ls)
    ensures TextPrefix(data, ls)
  {
    assert data[..|data|] == data;
  }

  /** The file of two runs of lines is the file of the first followed by that of the second. */
  lemma {:induction false} DocumentAppend(a: seq<string>, b: seq<string>)
    ensures Document(a + b) == Document(a) + Document(b)
    decreases |b|
  {
    if b == [] {
      assert a + b == a;
    } else {
      var b' := b[..|b| - 1];
      var last := b[|b| - 1];
      assert (a + b)[..|a + b| - 1] == a + b';
      assert (a + b)[|a + b| - 1] == last;
      DocumentAppend(a, b');
      calc {
        Document(a + b);
        Document(a + b') + last + "\n";
        Document(a) + Document(b') + last + "\n";
        { AppendAssoc(Document(a), Document(b'), last);
          AppendAssoc(Document(a), Document(b') + last, "\n"); }
        Document(a) + (Document(b') + last + "\n");
      }
    }
  }

  /** Line `j` of a text file starts right after the first `j` lines and ends with a line
      feed; `readline` copies it as it is. */
  lemma DocumentLine(data: seq<byte>, ls: seq<string>, j: nat)
    requires TextPrefix(data, ls) && j < |ls|
    ensures var off := |Document(ls[..j])|;
      off + |ls[j]| < |data| && |Document(ls[..j + 1])| == off + |ls[j]| + 1 &&
      PlainLine(data, off, off + |ls[j]|, LINE_SIZE) && data[off + |ls[j]|] == LF &&
      CopiedText(data, off, off + |ls[j]|, false) == ls[j] &&
      WithoutTrailingSpaces(ls[j]) == |ls[j]|
  {
    var l := ls[j];
    var off := |Document(ls[..j])|;
    DocumentAt(ls, j);
    var doc := Document(ls);
    assert Chars(data[off..off + |l| + 1]) == doc[off..off + |l| + 1] by {
      assert Chars(data[..|doc|]) == doc;
    }
    assert doc[off..off + |l| + 1] == l + "\n";
    LineBytes(data, l, off);
  }

  /** A file splits around its line `j`. */
  lemma DocumentAt(ls: seq<string>, j: nat)
    requires j < |ls|
    ensures Document(ls) == Document(ls[..j]) + (ls[j] + "\n") + Document(ls[j + 1..])
    ensures |Document(ls[..j + 1])| == |Document(ls[..j])| + |ls[j]| + 1
  {
    assert ls[..j + 1][..j] == ls[..j];
    assert Document(ls[..j + 1]) == Document(ls[..j]) + ls[j] + "\n";
    DocumentAppend(ls[..j + 1], ls[j + 1..]);
    assert ls[..j + 1] + ls[j + 1..] == ls;
    AppendAssoc(Document(ls[..j]), ls[j], "\n");
  }

  /** The bytes at `off` spell a plain line and its line feed: `readline` copies the line as
      it is. */
  lemma LineBytes(data: seq<byte>, l: string, off: nat)
    requires PlainText(l) && off + |l| < |data|
    requires Chars(data[off..off + |l| + 1]) == l + "\n"
    ensures PlainLine(data, off, off + |l|, LINE_SIZE)
    ensures CopiedText(data, off, off + |l|, false) == l
    ensures WithoutTrailingSpaces(l) == |l|
  {
    LineFeedAt(data, l, off);
    PlainBytesAt(data, l, off);
    assert Chars(data[off..off + |l|]) == Chars(data[off..off + |l| + 1])[..|l|];
    CopiedPlain(l);
  }

  lemma LineFeedAt(data: seq<byte>, l: string, off: nat)
    requires off + |l| < |data|
    requires Chars(data[off..off + |l| + 1]) == l + "\n"
    ensures data[off + |l|] == LF
  {
    assert data[off + |l|] as char == Chars(data[off..off + |l| + 1])[|l|];
  }

  lemma PlainBytesAt(data: seq<byte>, l: string, off: nat)
    requires PlainText(l) && off + |l| < |data|
    requires Chars(data[off..off + |l| + 1]) == l + "\n"
    ensures forall i :: off <= i < off + |l| ==> PlainByte(data[i])
  {
    var cs := Chars(data[off..off + |l| + 1]);
    forall i | off <= i < off + |l|
      ensures PlainByte(data[i])
    {
      assert data[i] as char == cs[i - off];
      PlainByteOfChar(data[i]);
    }
  }

  lemma PlainByteOfChar(b: byte)
    requires PlainChar(b as char)
    ensures PlainByte(b)
  {
  }

  /** A plain line has no leading blank and no trailing space. */
  lemma CopiedPlain(l: string)
    requires PlainText(l)
    ensures DropLeadingBlanks(l) == l && WithoutTrailingSpaces(l) == |l|
  {
    assert LeadingBlanks(l) == 0;
    assert l[0..] == l;
    if l != [] {
      assert l[|l| - 1] != ' ';
    }
  }

  /** The lines a text file hands `readline` one after the other: the first `j` lines end
      where line `j` starts. */
  lemma DocumentEnd(data: seq<byte>, ls: seq<string>)
    requires TextFile(data, ls)
    ensures |Document(ls)| == |data| && ls[..|ls|] == ls
  {
  }

  /** Where the reading loop stands in the text file of `ls` after reading `lines`: the first
      lines of the file, the stream good and right after them; or every line and then one empty
      read that failed at the end of the file. */
  ghost predicate Reading(data: seq<byte>, ls: seq<string>, lines: seq<string>, pos: nat, fail: bool)
  {
    (!fail && |lines| <= |ls| && lines == ls[..|lines|] && pos == |Document(ls[..|lines|])|) ||
    (fail && lines == ls + [[]])
  }

  /** `readline` in a text file, while the stream is good, hands back its next line, or fails
      with nothing at its end. */
  lemma NextLine(data: seq<byte>, ls: seq<string>, lines: seq<string>, pos: nat,
                 buffer: string, pos': nat, fail': bool)
    requires TextFile(data, ls) && Reading(data, ls, lines, pos, false)
    requires pos <= pos' <= |data| && |buffer| <= pos' - pos && (pos' > pos || fail')
    requires forall k: nat :: PlainLine(data, pos, k, LINE_SIZE) ==>
               (pos' == EndAfter(data, k) && !fail' &&
                buffer == (var d := CopiedText(data, pos, k, false); d[..WithoutTrailingSpaces(d)]))
    ensures Reading(data, ls, lines + [buffer], pos', fail')
  {
    var j := |lines|;
    if j < |ls| {
      TextFileIsPrefix(data, ls);
      DocumentLine(data, ls, j);
      var k := pos + |ls[j]|;
      assert PlainLine(data, pos, k, LINE_SIZE);
      assert pos' == k + 1;
      assert buffer == ls[j][..|ls[j]|] == ls[j];
      PrefixSnoc(ls, lines, j);
    } else {
      DocumentEnd(data, ls);
      assert lines == ls;
    }
  }

  /** `readline` in a file that starts with the plain lines `ls`, before their end, hands
      back the next one of them. */
  lemma NextPrefixLine(data: seq<byte>, ls: seq<string>, lines: seq<string>, pos: nat,
                       buffer: string, pos': nat, fail': bool)
    requires TextPrefix(data, ls) && |lines| < |ls| && lines == ls[..|lines|]
    requires pos == |Document(lines)|
    requires forall k: nat :: PlainLine(data, pos, k, LINE_SIZE) ==>
               (pos' == EndAfter(data, k) && !fail' &&
                buffer == (var d := CopiedText(data, pos, k, false); d[..WithoutTrailingSpaces(d)]))
    ensures lines + [buffer] == ls[..|lines| + 1] && pos' == |Document(ls[..|lines| + 1])| && !fail'
  {
    var j := |lines|;
    DocumentLine(data, ls, j);
    var k := pos + |ls[j]|;
    assert PlainLine(data, pos, k, LINE_SIZE);
    assert pos' == k + 1;
    assert buffer == ls[j][..|ls[j]|] == ls[j];
    PrefixSnoc(ls, lines, j);
  }

  lemma PrefixSnoc(ls: seq<string>, lines: seq<string>, j: nat)
    requires j < |ls| && lines == ls[..j]
    ensures lines + [ls[j]] == ls[..j + 1]
  {
  }

  /** Reading a text file to its end, or until the reader stops, leaves the reader where
      reading its lines does. */
  lemma AllLinesRead(conv: Conv, data: seq<byte>, ls: seq<string>, lines: seq<string>, pos: nat, fail: bool)
    requires TextFile(data, ls) && Reading(data, ls, lines, pos, fail)
    requires !fail ==> RunText(conv, START, lines).stopped
    ensures RunText(conv, START, lines) == RunText(conv, START, ls)
  {
    if fail {
      RunTextSnoc(conv, START, ls, []);
      assert CleanLine([]) == [];
    } else {
      var n := |lines|;
      assert ls == lines + ls[n..];
      RunTextAppend(conv, START, lines, ls[n..]);
    }
  }

  // ---------------------------------------------------------------- written lines are plain

  /** Every line of the written file fits the buffer of `readline`. */
  predicate LinesFit(ls: seq<string>)
  {
    forall j :: 0 <= j < |ls| ==> |ls[j]| < LINE_SIZE - 1
  }

  /** A word of plain characters other than the space. */
  predicate PlainWord(w: string)
  {
    w != [] && forall i :: 0 <= i < |w| ==> PlainChar(w[i]) && w[i] != ' '
  }

  /** Words of plain characters joined by single spaces make a plain line when it fits. */
  lemma PlainJoin(ws: seq<string>)
    requires ws != [] && forall i :: 0 <= i < |ws| ==> PlainWord(ws[i])
    requires |Join(ws, ' ')| < LINE_SIZE - 1
    ensures PlainText(Join(ws, ' '))
  {
    var s := Join(ws, ' ');
    JoinChars(ws, ' ');
    JoinEnds(ws, ' ');
    forall i | 0 <= i < |s|
      ensures PlainChar(s[i])
    {
      assert s[i] in s;
      if s[i] != ' ' {
        var w :| 0 <= w < |ws| && s[i] in ws[w];
        var p :| 0 <= p < |ws[w]| && ws[w][p] == s[i];
      }
    }
  }

  lemma DecimalPlain(n: nat)
    ensures PlainWord(NatToDecimal(n))
  {
    var w := NatToDecimal(n);
    assert forall i :: 0 <= i < |w| ==> IsDigit(w[i]);
  }

  lemma FloatPlain(conv: Conv, r: real)
    requires PrintsExactly(conv, r)
    ensures PlainWord(conv.formatFloat(r))
  {
  }

  lemma VertexLinePlain(conv: Conv, v: Vertex, d: Descriptor)
    requires forall j :: 0 <= j < |VertexValues(v, d)| ==> PrintsExactly(conv, VertexValues(v, d)[j])
    requires |VertexLine(conv, v, d)| < LINE_SIZE - 1
    ensures PlainText(VertexLine(conv, v, d))
  {
    var vals := VertexValues(v, d);
    var ws := Words(conv, vals);
    forall i | 0 <= i < |ws|
      ensures PlainWord(ws[i])
    {
      FloatPlain(conv, vals[i]);
    }
    PlainJoin(ws);
  }

  lemma FaceLinePlain(conv: Conv, f: Face, hasFaceColors: bool, nbVertices: nat)
    requires FaceRepresentable(conv, f, hasFaceColors, nbVertices)
    requires |FaceLine(conv, f, hasFaceColors)| < LINE_SIZE - 1
    ensures PlainText(FaceLine(conv, f, hasFaceColors))
  {
    var ws := FaceWords(conv, f, hasFaceColors);
    var n := |f.indices|;
    FaceWordsShape(conv, f, hasFaceColors);
    var tail := ColorWords(conv, f, hasFaceColors);
    forall i | 0 <= i < |ws|
      ensures PlainWord(ws[i])
    {
      if i == 0 {
        DecimalPlain(n);
      } else if i <= n {
        DecimalPlain(f.indices[i - 1]);
      } else {
        assert ws[i] == tail[i - n - 1];
        if f.colormapIndex == NO_COLORMAP {
          var cv := [f.color.x, f.color.y, f.color.z, f.color.w];
          assert tail[i - n - 1] == conv.formatFloat(cv[i - n - 1]);
          FloatPlain(conv, cv[i - n - 1]);
        } else {
          DecimalPlain(f.colormapIndex);
        }
      }
    }
    PlainJoin(ws);
  }

  lemma CommentPlain()
    ensures PlainText(WRITER_COMMENT)
  {
  }

  lemma DescriptorPlain(d: Descriptor)
    ensures PlainText(DescriptorText(d))
  {
    var t := DescriptorText(d);
    assert t == Flags(d) + "OFF";
    assert forall i :: 0 <= i < |t| ==> t[i] in Flags(d) || t[i] in "OFF";
  }

  lemma CountsPlain(nv: nat, nf: nat)
    requires |CountsText(nv, nf)| < LINE_SIZE - 1
    ensures PlainText(CountsText(nv, nf))
  {
    var ws := [NatToDecimal(nv), NatToDecimal(nf), "0"];
    assert Join(ws, ' ') == CountsText(nv, nf) by {
      assert Join(ws[2..], ' ') == "0";
      assert Join(ws[1..], ' ') == NatToDecimal(nf) + " 0";
    }
    DecimalPlain(nv);
    DecimalPlain(nf);
    assert PlainWord("0");
    PlainJoin(ws);
  }

  /** The file `writeOFF` writes for a mesh that survives the text format is a text file of
      its lines, as long as every line fits the buffer of `readline`. */
  lemma WrittenLinesPlain(conv: Conv, m: Mesh)
    requires SurvivesText(conv, m) && LinesFit(WrittenLines(conv, m))
    ensures forall j :: 0 <= j < |WrittenLines(conv, m)| ==> PlainText(WrittenLines(conv, m)[j])
  {
    var ls := WrittenLines(conv, m);
    var d := WriterDescriptor(m);
    var nv := |m.vertices|;
    var vl := VertexLines(conv, m.vertices, d);
    var fl := FaceLines(conv, m.faces, m.faceColors);
    assert ls == [WRITER_COMMENT, DescriptorText(d), CountsText(nv, |m.faces|)] + vl + fl;
    forall j | 0 <= j < |ls|
      ensures PlainText(ls[j])
    {
      assert |ls[j]| < LINE_SIZE - 1;
      if j == 0 {
        CommentPlain();
      } else if j == 1 {
        DescriptorPlain(d);
      } else if j == 2 {
        CountsPlain(nv, |m.faces|);
      } else if j < 3 + nv {
        assert ls[j] == vl[j - 3];
        VertexLinePlain(conv, m.vertices[j - 3], d);
      } else if 3 + nv <= j {
        assert ls[j] == fl[j - 3 - nv];
        FaceLinePlain(conv, m.faces[j - 3 - nv], m.faceColors, nv);
      }
    }
  }
}
