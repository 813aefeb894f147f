/** The per-line logic of the text OFF reader (`Model::readOFF` in off.cpp) and the lines the
    writers emit: line cleaning, the descriptor line, the dimension and count lines, the vertex
    token state machine and the face line. */
module OffText {
  import opened Common
  import opened OffTypes
  import opened OffLine

  // ---------------------------------------------------------------- line cleaning

  /** The line up to its first '#': a comment runs to the end of the line. */
  function CommentCut(s: string): (r: string)
    ensures |r| <= |s| && r == s[..|r|] && '#' !in r
    ensures |r| < |s| ==> s[|r|] == '#'
    decreases |s|
  {
    if s == [] || s[0] == '#' then [] else [s[0]] + CommentCut(s[1..])
  }

  /** What the reader works on for a line read into the buffer: the text before the first NUL,
      without its comment, trimmed. */
  function CleanLine(buffer: string): (r: string)
    ensures '#' !in r && '\0' !in r
    ensures r == [] || (!IsBlank(r[0]) && !IsBlank(r[|r| - 1]))
  {
    var s := CommentCut(CutAtNul(buffer));
    var r := Trim(s);
    assert forall c :: c in r ==> c in s;
    r
  }

  /** A line with no NUL, no '#' and no blank at either end is its own clean line. */
  lemma CleanLineOfPlain(line: string)
    requires '\0' !in line && '#' !in line
    requires line == [] || (!IsBlank(line[0]) && !IsBlank(line[|line| - 1]))
    ensures CleanLine(line) == line
  {
    CutAtNulNone(line);
    CommentCutNone(line);
    if line != [] {
      assert LeadingBlanks(line) == 0;
      assert line[0..|line|] == line;
    }
  }

  lemma {:induction false} CutAtNulNone(s: string)
    requires '\0' !in s
    ensures CutAtNul(s) == s
    decreases |s|
  {
    if s != [] {
      CutAtNulNone(s[1..]);
      assert s == [s[0]] + s[1..];
    }
  }

  lemma {:induction false} CommentCutNone(s: string)
    requires '#' !in s
    ensures CommentCut(s) == s
    decreases |s|
  {
    if s != [] {
      CommentCutNone(s[1..]);
      assert s == [s[0]] + s[1..];
    }
  }

  /** The first line both writers emit is a comment, which the readers skip as blank. */
  const WRITER_COMMENT: string := "# file written by OpenSceneGraph"

  lemma WriterCommentIsBlank()
    ensures CleanLine(WRITER_COMMENT) == []
  {
    var w := WRITER_COMMENT;
    assert w[0] == '#';
    assert CutAtNul(w) == [w[0]] + CutAtNul(w[1..]);
  }

  // ---------------------------------------------------------------- descriptor line

  predicate EndsWith(s: string, suffix: string)
  {
    |s| >= |suffix| && s[|s| - |suffix|..] == suffix
  }

  /** The flags of an OFF descriptor: "ST" (texture coordinates), "C" (colours), "N"
      (normals), "4" (a fourth component) and "n" (a dimension line follows). */
  datatype Descriptor = Descriptor(texcoords: bool, colors: bool, normals: bool,
                                   is4: bool, nDim: bool)

  /** The prefixes of a descriptor, each consumed in the fixed order ST, C, N, 4, n. */
  function Prefixes(s: string): (d: Descriptor)
    ensures d.texcoords <==> |s| >= 2 && s[..2] == "ST"
  {
    var st := |s| >= 2 && s[..2] == "ST";
    var s1 := if st then s[2..] else s;
    var c := |s1| >= 1 && s1[0] == 'C';
    var s2 := if c then s1[1..] else s1;
    var n := |s2| >= 1 && s2[0] == 'N';
    var s3 := if n then s2[1..] else s2;
    var four := |s3| >= 1 && s3[0] == '4';
    var s4 := if four then s3[1..] else s3;
    var nd := |s4| >= 1 && s4[0] == 'n';
    Descriptor(st, c, n, four, nd)
  }

  datatype Header = NotOff | BinaryHeader | TextHeader(d: Descriptor)

  /** The descriptor line as `readOFF` reads it: a line ending in "BINARY" is left to the
      binary reader; a line not ending in "OFF" is an error. */
  function ParseTextHeader(str: string): (h: Header)
    ensures h.BinaryHeader? <==> EndsWith(str, "BINARY")
    ensures h.TextHeader? ==> EndsWith(str, "OFF")
    ensures !EndsWith(str, "BINARY") && EndsWith(str, "OFF") ==> h == TextHeader(Prefixes(str))
  {
    if EndsWith(str, "BINARY") then BinaryHeader
    else if !EndsWith(str, "OFF") then NotOff
    else TextHeader(Prefixes(str))
  }

  /** The descriptor line as `readOFF_binary` reads it: "BINARY" must end the line and the
      trimmed rest must end in "OFF". */
  function ParseBinaryHeader(str: string): (d: Option<Descriptor>)
    ensures d.Some? ==> EndsWith(str, "BINARY")
  {
    if !EndsWith(str, "BINARY") then None
    else
      var rest := Trim(str[..|str| - 6]);
      if !EndsWith(rest, "OFF") then None else Some(Prefixes(rest))
  }

  /** The flags the writers emit: ST, C, N in that order (never "4" or "n"). */
  function Flags(d: Descriptor): (f: string)
    ensures forall c :: c in f ==> c == 'S' || c == 'T' || c == 'C' || c == 'N'
  {
    (if d.texcoords then "ST" else "") + (if d.colors then "C" else "") + (if d.normals then "N" else "")
  }

  /** The descriptor the text writer emits. */
  function DescriptorText(d: Descriptor): string
  {
    Flags(d) + "OFF"
  }

  /** The descriptor line the binary writer emits. */
  function BinaryDescriptorText(d: Descriptor): string
  {
    Flags(d) + "OFF BINARY"
  }

  /** The writers never emit the "4" and "n" flags. */
  predicate Writable(d: Descriptor) { !d.is4 && !d.nDim }

  /** Reading the prefixes of the written flags gives the flags back. */
  lemma PrefixesOfFlags(d: Descriptor, tail: string)
    requires Writable(d) && tail != [] && tail[0] == 'O'
    ensures Prefixes(Flags(d) + tail) == d
  {
    var a, b, c := (if d.texcoords then "ST" else ""), (if d.colors then "C" else ""),
                   (if d.normals then "N" else "");
    var s3 := c + tail;
    var s2 := b + s3;
    var s := a + s2;
    assert Flags(d) + tail == s by {
      AppendAssoc(a + b, c, tail);
      AppendAssoc(a, b, c + tail);
    }
    assert s3[0] == (if d.normals then 'N' else 'O');
    assert s2[0] == (if d.colors then 'C' else s3[0]);
    assert s[0] == (if d.texcoords then 'S' else s2[0]);
    assert d.texcoords ==> s[..2] == "ST" && s[2..] == s2;
    assert d.colors ==> s2[1..] == s3;
    assert d.normals ==> s3[1..] == tail;
  }

  /** A line that is the written flags and a fixed text is its own clean line. */
  lemma CleanFlagsLine(d: Descriptor, tail: string)
    requires tail != [] && '\0' !in tail && '#' !in tail && !IsBlank(tail[|tail| - 1])
    requires tail[0] == 'O'
    ensures CleanLine(Flags(d) + tail) == Flags(d) + tail
  {
    var s := Flags(d) + tail;
    assert s[|s| - 1] == tail[|tail| - 1];
    assert !IsBlank(s[0]) by {
      if Flags(d) != [] { assert s[0] in Flags(d); } else { assert s[0] == tail[0]; }
    }
    assert '\0' !in s && '#' !in s by {
      forall c | c in s ensures c != '\0' && c != '#' {
        if c in Flags(d) {} else { assert c in tail; }
      }
    }
    CleanLineOfPlain(s);
  }

  /** The text reader reads back the descriptor the text writer emits. */
  lemma DescriptorRoundTrip(d: Descriptor)
    requires Writable(d)
    ensures CleanLine(DescriptorText(d)) == DescriptorText(d)
    ensures ParseTextHeader(DescriptorText(d)) == TextHeader(d)
  {
    var tail := "OFF";
    assert '\0' !in tail && '#' !in tail && !IsBlank(tail[2]) && tail[0] == 'O';
    CleanFlagsLine(d, tail);
    var s := DescriptorText(d);
    assert s[|s| - 3..] == tail;
    assert s[|s| - 1] == 'F';
    assert !EndsWith(s, "BINARY");
    PrefixesOfFlags(d, tail);
  }

  /** The binary reader reads back the descriptor the binary writer emits, and the text
      reader hands that line over to it. */
  lemma BinaryDescriptorRoundTrip(d: Descriptor)
    requires Writable(d)
    ensures CleanLine(BinaryDescriptorText(d)) == BinaryDescriptorText(d)
    ensures ParseTextHeader(BinaryDescriptorText(d)) == BinaryHeader
    ensures ParseBinaryHeader(BinaryDescriptorText(d)) == Some(d)
  {
    BinarySuffix(d);
    CleanFlagsLine(d, "OFF BINARY");
    var f := Flags(d);
    TrimOffSpace(f);
    var rest := f + "OFF";
    assert rest[|rest| - 3..] == "OFF";
    PrefixesOfFlags(d, "OFF");
  }

  lemma BinarySuffix(d: Descriptor)
    ensures var s := BinaryDescriptorText(d);
      EndsWith(s, "BINARY") && s[..|s| - 6] == Flags(d) + "OFF "
  {
    var s := BinaryDescriptorText(d);
    var f := Flags(d);
    var t := "OFF BINARY";
    assert s[|f|..] == t;
    assert s[|s| - 6..] == t[4..];
    assert s[..|s| - 6] == f + t[..4];
  }

  /** Trimming the written flags followed by "OFF " leaves the flags and "OFF". */
  lemma TrimOffSpace(f: string)
    requires forall c :: c in f ==> c == 'S' || c == 'T' || c == 'C' || c == 'N'
    ensures Trim(f + "OFF ") == f + "OFF"
  {
    var head := f + "OFF ";
    assert !IsBlank(head[0]) by {
      if f != [] { assert head[0] in f; }
    }
    assert LeadingBlanks(head) == 0;
    assert head[..|head| - 1] == f + "OFF";
    assert WithoutTrailingBlanks(head) == |head| - 1;
  }

  // ---------------------------------------------------------------- dimension and counts

  /** The dimension line of an "nOFF" file: one unsigned integer without a '.', at most 4
      including the fourth component; 0 stands for 3. */
  function ParseNDim(conv: Conv, str: string, is4: bool): (r: Option<nat>)
    ensures r.Some? ==> 1 <= r.value && r.value + (if is4 then 1 else 0) <= 4
    ensures r.Some? ==> conv.isNumber(str) && |Tokens(str, ".")| == 1
    ensures conv.isNumber(str) && |Tokens(str, ".")| == 1 && conv.parseUnsignedInt(str) == 0 ==> r == Some(3)
    ensures r.Some? ==> r.value == if conv.parseUnsignedInt(str) == 0 then 3 else conv.parseUnsignedInt(str)
    ensures (conv.isNumber(str) && |Tokens(str, ".")| == 1 &&
             conv.parseUnsignedInt(str) + (if is4 then 1 else 0) <= 4) ==> r.Some?
  {
    if !(conv.isNumber(str) && |Tokens(str, ".")| == 1) then None
    else
      var nbDim := conv.parseUnsignedInt(str);
      if nbDim + (if is4 then 1 else 0) > 4 then None
      else if nbDim == 0 then Some(3)
      else Some(nbDim)
  }

  /** The counts line: at least two words, the vertex and face counts (the edge count is
      ignored). */
  function ParseCounts(conv: Conv, str: string): (r: Option<(nat, nat)>)
    ensures r.Some? <==> |Tokens(str, " ")| >= 2
    ensures r.Some? ==> r.value == (conv.parseUnsignedInt(Tokens(str, " ")[0]),
                                    conv.parseUnsignedInt(Tokens(str, " ")[1]))
  {
    var sl := Tokens(str, " ");
    if |sl| < 2 then None
    else Some((conv.parseUnsignedInt(sl[0]) as nat, conv.parseUnsignedInt(sl[1]) as nat))
  }

  /** The counts line both writers' text form emits: "nv nf 0". */
  function CountsText(nbVertex: nat, nbFaces: nat): string
  {
    NatToDecimal(nbVertex) + " " + NatToDecimal(nbFaces) + " 0"
  }

  lemma CountsRoundTrip(conv: Conv, nbVertex: nat, nbFaces: nat)
    requires ReadsBackIntegers(conv) && nbVertex < 0x1_0000_0000 && nbFaces < 0x1_0000_0000
    ensures CleanLine(CountsText(nbVertex, nbFaces)) == CountsText(nbVertex, nbFaces)
    ensures ParseCounts(conv, CountsText(nbVertex, nbFaces)) == Some((nbVertex, nbFaces))
  {
    var ws := [NatToDecimal(nbVertex), NatToDecimal(nbFaces), "0"];
    DecimalWord(nbVertex);
    DecimalWord(nbFaces);
    assert Join(ws, ' ') == CountsText(nbVertex, nbFaces) by {
      assert Join(ws[2..], ' ') == "0";
      assert Join(ws[1..], ' ') == NatToDecimal(nbFaces) + " 0";
    }
    TokensJoin(ws, ' ');
    assert NatToDecimal(nbVertex) == Join(ws, ' ')[..|NatToDecimal(nbVertex)|];
    CleanPlainWords(ws);
  }

  /** A decimal numeral is a non-empty word with no space, tab, '#', '.' or NUL. */
  lemma DecimalWord(n: nat)
    ensures var w := NatToDecimal(n);
      w != [] && ' ' !in w && '\t' !in w && '#' !in w && '.' !in w && '\0' !in w
  {
    var w := NatToDecimal(n);
    assert forall k :: 0 <= k < |w| ==> IsDigit(w[k]);
  }

  /** A line of words joined by single spaces is its own clean line when the words are
      non-empty and hold no blank, '#' or NUL. */
  lemma CleanPlainWords(ws: seq<string>)
    requires forall i :: 0 <= i < |ws| ==>
      ws[i] != [] && ' ' !in ws[i] && '\t' !in ws[i] && '#' !in ws[i] && '\0' !in ws[i]
    ensures CleanLine(Join(ws, ' ')) == Join(ws, ' ')
  {
    JoinChars(ws, ' ');
    var s := Join(ws, ' ');
    if ws != [] {
      JoinEnds(ws, ' ');
    }
    CleanLineOfPlain(s);
  }

  /** Every character of a joined line is the separator or a character of a word. */
  lemma {:induction false} JoinChars(ws: seq<string>, sep: char)
    ensures forall c :: c in Join(ws, sep) ==> c == sep || exists i :: 0 <= i < |ws| && c in ws[i]
    decreases |ws|
  {
    if |ws| > 1 {
      JoinChars(ws[1..], sep);
      forall c | c in Join(ws, sep)
        ensures c == sep || exists i :: 0 <= i < |ws| && c in ws[i]
      {
        if c in Join(ws[1..], sep) && c != sep {
          var i :| 0 <= i < |ws[1..]| && c in ws[1..][i];
          assert c in ws[i + 1];
        } else if c in ws[0] {
          assert c in ws[0];
        }
      }
    }
  }

  /** A joined line starts with the first word and ends with the last one. */
  lemma {:induction false} JoinEnds(ws: seq<string>, sep: char)
    requires ws != [] && forall i :: 0 <= i < |ws| ==> ws[i] != []
    ensures var s := Join(ws, sep); s != [] && s[0] == ws[0][0] && s[|s| - 1] == ws[|ws| - 1][|ws[|ws| - 1]| - 1]
    decreases |ws|
  {
    if |ws| > 1 {
      JoinEnds(ws[1..], sep);
    }
  }

  // ---------------------------------------------------------------- non-number filter

  /** The tokens of `sl` that read as numbers, in order: what the filter loop before the
      vertex and face machines is meant to leave. */
  function NumbersOnly(conv: Conv, sl: seq<string>): (r: seq<string>)
    ensures |r| <= |sl|
    ensures forall t :: t in r <==> t in sl && conv.isNumber(t)
    decreases |sl|
  {
    if sl == [] then []
    else (if conv.isNumber(sl[0]) then [sl[0]] else []) + NumbersOnly(conv, sl[1..])
  }

  /** A token list made only of numbers passes the filter unchanged. */
  lemma {:induction false} NumbersOnlyAll(conv: Conv, sl: seq<string>)
    requires forall i :: 0 <= i < |sl| ==> conv.isNumber(sl[i])
    ensures NumbersOnly(conv, sl) == sl
    decreases |sl|
  {
    if sl != [] {
      NumbersOnlyAll(conv, sl[1..]);
    }
  }

  /** The filter as written: `i = sl.erase(i)` already moves to the next token, which the
      loop's `++i` then skips unchecked. (When the removed token is the last one the loop
      runs past the end; the model stops there.) */
  function NumbersFilterAsWritten(conv: Conv, sl: seq<string>): (r: seq<string>)
    ensures |r| <= |sl|
    decreases |sl|
  {
    if sl == [] then []
    else if conv.isNumber(sl[0]) then [sl[0]] + NumbersFilterAsWritten(conv, sl[1..])
    else if |sl| == 1 then []
    else [sl[1]] + NumbersFilterAsWritten(conv, sl[2..])
  }

  /** Two words in a row that are not numbers: the second one survives the filter as
      written. */
  lemma NumbersFilterAsWrittenKeepsWord()
    ensures var conv := Conv(s => s == "1", s => 0.0, s => 0, s => 0, r => "", w => 0.0,
                             r => 0, s => []);
      NumbersFilterAsWritten(conv, ["x", "y", "1"]) == ["y", "1"] &&
      NumbersOnly(conv, ["x", "y", "1"]) == ["1"]
  {
    var conv := Conv(s => s == "1", s => 0.0, s => 0, s => 0, r => "", w => 0.0, r => 0, s => []);
    var sl := ["x", "y", "1"];
    assert !conv.isNumber("x") && !conv.isNumber("y") && conv.isNumber("1");
    assert sl[2..] == ["1"] && sl[1..] == ["y", "1"] && sl[1..][1..] == ["1"];
  }

  /** The filter loop, erasing each token that is not a number and stepping past the tokens
      it keeps. */
  method RemoveNonNumbers(conv: Conv, sl: seq<string>) returns (r: seq<string>)
    ensures r == NumbersOnly(conv, sl)
  {
    r := sl;
    var i := 0;
    while i < |r|
      invariant 0 <= i <= |r|
      invariant r[..i] + NumbersOnly(conv, r[i..]) == NumbersOnly(conv, sl)
      decreases |r| - i
    {
      ghost var before := r;
      assert before[i..][1..] == before[i + 1..];
      if !conv.isNumber(r[i]) {
        r := r[..i] + r[i + 1..];
        assert r[..i] == before[..i] && r[i..] == before[i + 1..];
      } else {
        assert r[..i + 1] == r[..i] + [r[i]];
        AppendAssoc(r[..i], [r[i]], NumbersOnly(conv, r[i + 1..]));
        i := i + 1;
      }
    }
    assert r[i..] == [];
    assert r[..i] == r;
  }

  // ---------------------------------------------------------------- vertex tokens

  /** What the descriptor and dimension line say a vertex holds: `nbDim` position (and
      normal) components, a fourth one, normals, colours, texture coordinates. */
  datatype Layout = Layout(nbDim: nat, is4: bool, normals: bool, colors: bool, texcoords: bool)

  predicate ValidLayout(l: Layout) { 1 <= l.nbDim <= 4 }

  /** One component of a vertex. */
  datatype Slot = PositionAt(i: nat) | NormalAt(i: nat) | ColorAt(i: nat) | TexcoordAt(i: nat)

  predicate ValidSlot(s: Slot)
  {
    match s
    case PositionAt(i) => i < 4
    case NormalAt(i) => i < 4
    case ColorAt(i) => i < 4
    case TexcoordAt(i) => i < 2
  }

  function Bit(b: bool): nat { if b then 1 else 0 }

  function PositionSlots(l: Layout): (r: seq<Slot>)
    ensures |r| == l.nbDim + Bit(l.is4)
    ensures forall j :: 0 <= j < l.nbDim ==> r[j] == PositionAt(j)
    ensures l.is4 ==> r[l.nbDim] == PositionAt(3)
  {
    seq(l.nbDim, j requires 0 <= j => PositionAt(j)) + (if l.is4 then [PositionAt(3)] else [])
  }

  function NormalSlots(l: Layout): (r: seq<Slot>)
    ensures |r| == if l.normals then l.nbDim + Bit(l.is4) else 0
    ensures l.normals ==> forall j :: 0 <= j < l.nbDim ==> r[j] == NormalAt(j)
    ensures l.normals && l.is4 ==> r[l.nbDim] == NormalAt(3)
  {
    if l.normals then seq(l.nbDim, j requires 0 <= j => NormalAt(j)) + (if l.is4 then [NormalAt(3)] else []) else []
  }

  function ColorSlots(l: Layout): (r: seq<Slot>)
    ensures |r| == if l.colors then 4 else 0
    ensures forall j :: 0 <= j < |r| ==> r[j] == ColorAt(j)
  {
    if l.colors then [ColorAt(0), ColorAt(1), ColorAt(2), ColorAt(3)] else []
  }

  function TexcoordSlots(l: Layout): (r: seq<Slot>)
    ensures |r| == if l.texcoords then 2 else 0
    ensures forall j :: 0 <= j < |r| ==> r[j] == TexcoordAt(j)
  {
    if l.texcoords then [TexcoordAt(0), TexcoordAt(1)] else []
  }

  /** The components a vertex's values fill, in order: position (`nbDim`, then w with the "4"
      flag), normal (the same), colour (4), texture coordinate (2). */
  function Slots(l: Layout): (r: seq<Slot>)
    requires ValidLayout(l)
    ensures forall j :: 0 <= j < |r| ==> ValidSlot(r[j])
  {
    PositionSlots(l) + NormalSlots(l) + ColorSlots(l) + TexcoordSlots(l)
  }

  /** A colour channel given on the 0-255 scale (above 1) is brought to [0, 1]. */
  function ColorChannel(r: real): (c: real)
    ensures r <= 1.0 ==> c == r
    ensures r > 1.0 ==> c * 255.0 == r
  {
    if r > 1.0 then r / 255.0 else r
  }

  /** The vertex with component `s` set to `r` (a colour channel scaled when `scaleColors`). */
  function Store(v: Vertex, s: Slot, r: real, scaleColors: bool): Vertex
    requires ValidSlot(s)
  {
    match s
    case PositionAt(i) => v.(position := WithComponent(v.position, i, r))
    case NormalAt(i) => v.(normal := WithComponent(v.normal, i, r))
    case ColorAt(i) => v.(color := WithComponent(v.color, i, if scaleColors then ColorChannel(r) else r))
    case TexcoordAt(i) => v.(texcoord := WithComponent2(v.texcoord, i, r))
  }

  /** Stores the values one by one into the components, as long as both last. */
  function FillFrom(v: Vertex, slots: seq<Slot>, vals: seq<real>, scaleColors: bool): Vertex
    requires forall j :: 0 <= j < |slots| ==> ValidSlot(slots[j])
    decreases |slots|
  {
    if slots == [] || vals == [] then v
    else FillFrom(Store(v, slots[0], vals[0], scaleColors), slots[1..], vals[1..], scaleColors)
  }

  /** The vertex a list of values makes: value j goes to component `Slots(l)[j]`; surplus
      values are ignored and components without a value keep the defaults. */
  function VertexOf(l: Layout, vals: seq<real>, scaleColors: bool): Vertex
    requires ValidLayout(l)
  {
    FillFrom(DEFAULT_VERTEX, Slots(l), vals, scaleColors)
  }

  /** Filling two runs of components is filling the first, then the second. */
  lemma {:induction false} FillAppend(v: Vertex, s1: seq<Slot>, s2: seq<Slot>, w1: seq<real>,
                                      w2: seq<real>, scaleColors: bool)
    requires |s1| == |w1|
    requires forall j :: 0 <= j < |s1| ==> ValidSlot(s1[j])
    requires forall j :: 0 <= j < |s2| ==> ValidSlot(s2[j])
    ensures forall j :: 0 <= j < |s1 + s2| ==> ValidSlot((s1 + s2)[j])
    ensures FillFrom(v, s1 + s2, w1 + w2, scaleColors) ==
            FillFrom(FillFrom(v, s1, w1, scaleColors), s2, w2, scaleColors)
    decreases |s1|
  {
    if s1 != [] {
      assert (s1 + s2)[1..] == s1[1..] + s2;
      assert (w1 + w2)[1..] == w1[1..] + w2;
      FillAppend(Store(v, s1[0], w1[0], scaleColors), s1[1..], s2, w1[1..], w2, scaleColors);
    } else {
      assert s1 + s2 == s2 && w1 + w2 == w2;
    }
  }

  /** Only as many components are filled as there are values. */
  lemma {:induction false} FillPrefix(v: Vertex, slots: seq<Slot>, vals: seq<real>, n: nat, scaleColors: bool)
    requires n <= |slots| && n <= |vals| && (n == |slots| || n == |vals|)
    requires forall j :: 0 <= j < |slots| ==> ValidSlot(slots[j])
    ensures FillFrom(v, slots, vals, scaleColors) == FillFrom(v, slots[..n], vals[..n], scaleColors)
    decreases n
  {
    if n > 0 {
      assert slots[..n][1..] == slots[1..][..n - 1];
      assert vals[..n][1..] == vals[1..][..n - 1];
      FillPrefix(Store(v, slots[0], vals[0], scaleColors), slots[1..], vals[1..], n - 1, scaleColors);
    }
  }

  /** One more value fills one more component. */
  lemma FillSnoc(v: Vertex, slots: seq<Slot>, vals: seq<real>, n: nat, scaleColors: bool)
    requires n < |slots| && n < |vals|
    requires forall j :: 0 <= j < |slots| ==> ValidSlot(slots[j])
    ensures FillFrom(v, slots[..n + 1], vals[..n + 1], scaleColors) ==
            Store(FillFrom(v, slots[..n], vals[..n], scaleColors), slots[n], vals[n], scaleColors)
  {
    assert slots[..n + 1] == slots[..n] + [slots[n]];
    assert vals[..n + 1] == vals[..n] + [vals[n]];
    FillAppend(v, slots[..n], [slots[n]], vals[..n], [vals[n]], scaleColors);
  }

  /** The states of the per-vertex machine. */
  datatype VertexState = VsPosition | VsPositionW | VsNormal | VsNormalW | VsColor | VsTexcoord | VsExit

  /** The states and component counters the machine can be in for a layout. */
  predicate Reachable(l: Layout, st: VertexState, indexArg: nat)
  {
    match st
    case VsPosition => indexArg < l.nbDim
    case VsPositionW => l.is4 && indexArg == 0
    case VsNormal => l.normals && indexArg < l.nbDim
    case VsNormalW => l.normals && l.is4 && indexArg == 0
    case VsColor => l.colors && indexArg < 4
    case VsTexcoord => l.texcoords && indexArg < 2
    case VsExit => true
  }

  /** How many values the machine has stored when it is in `st` with counter `indexArg`. */
  function Cursor(l: Layout, st: VertexState, indexArg: nat): nat
    requires ValidLayout(l)
  {
    var p := l.nbDim + Bit(l.is4);
    var n := if l.normals then p else 0;
    var c := if l.colors then 4 else 0;
    match st
    case VsPosition => indexArg
    case VsPositionW => l.nbDim
    case VsNormal => p + indexArg
    case VsNormalW => p + l.nbDim
    case VsColor => p + n + indexArg
    case VsTexcoord => p + n + c + indexArg
    case VsExit => |Slots(l)|
  }

  /** The component the machine writes next. */
  function CurrentSlot(st: VertexState, indexArg: nat): Slot
  {
    match st
    case VsPosition => PositionAt(indexArg)
    case VsPositionW => PositionAt(3)
    case VsNormal => NormalAt(indexArg)
    case VsNormalW => NormalAt(3)
    case VsColor => ColorAt(indexArg)
    case VsTexcoord => TexcoordAt(indexArg)
    case VsExit => PositionAt(0)
  }

  /** In every state but the last, the machine writes the component the layout lists at its
      cursor. */
  lemma SlotAtCursor(l: Layout, st: VertexState, indexArg: nat)
    requires ValidLayout(l) && Reachable(l, st, indexArg) && st != VsExit
    ensures Cursor(l, st, indexArg) < |Slots(l)|
    ensures Slots(l)[Cursor(l, st, indexArg)] == CurrentSlot(st, indexArg)
  {
    var ps, ns, cs, ts := PositionSlots(l), NormalSlots(l), ColorSlots(l), TexcoordSlots(l);
    var k := Cursor(l, st, indexArg);
    assert Slots(l) == ps + ns + cs + ts;
    match st
    case VsPosition => assert (ps + ns + cs + ts)[k] == ps[k];
    case VsPositionW => assert (ps + ns + cs + ts)[k] == ps[k];
    case VsNormal => assert (ps + ns + cs + ts)[k] == ns[k - |ps|];
    case VsNormalW => assert (ps + ns + cs + ts)[k] == ns[k - |ps|];
    case VsColor => assert (ps + ns + cs + ts)[k] == cs[k - |ps| - |ns|];
    case VsTexcoord => assert (ps + ns + cs + ts)[k] == ts[k - |ps| - |ns| - |cs|];
  }

  function Min(a: nat, b: nat): nat { if a < b then a else b }

  /** The values of the tokens, each read as a float. */
  function ParseAll(conv: Conv, sl: seq<string>): (vals: seq<real>)
    ensures |vals| == |sl| && forall j :: 0 <= j < |sl| ==> vals[j] == conv.parseFloat(sl[j])
  {
    seq(|sl|, j requires 0 <= j < |sl| => conv.parseFloat(sl[j]))
  }

  /** The per-vertex token machine of `readOFF`: it walks the (number) tokens of a vertex
      line, storing each into the component its state and counter designate and moving on when
      a group is complete; colour channels above 1 are divided by 255. */
  method ReadVertex(conv: Conv, l: Layout, sl: seq<string>) returns (v: Vertex)
    requires ValidLayout(l)
    ensures v == VertexOf(l, ParseAll(conv, sl), true)
  {
    v := DEFAULT_VERTEX;
    var vertexState := VsPosition;
    var indexArg := 0;
    for i := 0 to |sl|
      invariant TokensReadAt(conv, l, sl, i, v, vertexState, indexArg)
    {
      v, vertexState, indexArg := TokenStep(conv, l, sl, i, v, vertexState, indexArg);
    }
    FillPrefix(DEFAULT_VERTEX, Slots(l), ParseAll(conv, sl), Min(|sl|, |Slots(l)|), true);
  }

  /** The machine in state `st` with counter `indexArg` has stored into `v` the values of the
      first `i` tokens, as far as the layout has components for them. */
  ghost predicate TokensReadAt(conv: Conv, l: Layout, sl: seq<string>, i: nat, v: Vertex, st: VertexState,
                               indexArg: nat)
    requires ValidLayout(l) && i <= |sl|
  {
    var k := Min(i, |Slots(l)|);
    Reachable(l, st, indexArg) && Cursor(l, st, indexArg) == k &&
    v == FillFrom(DEFAULT_VERTEX, Slots(l)[..k], ParseAll(conv, sl)[..k], true)
  }

  /** One turn of the token loop: the machine takes the value of token `i`. */
  method TokenStep(conv: Conv, l: Layout, sl: seq<string>, i: nat, v: Vertex, st: VertexState, indexArg: nat)
    returns (v': Vertex, st': VertexState, indexArg': nat)
    requires ValidLayout(l) && i < |sl| && TokensReadAt(conv, l, sl, i, v, st, indexArg)
    ensures TokensReadAt(conv, l, sl, i + 1, v', st', indexArg')
  {
    if st != VsExit {
      SlotAtCursor(l, st, indexArg);
      FillSnoc(DEFAULT_VERTEX, Slots(l), ParseAll(conv, sl), i, true);
    }
    v', st', indexArg' := VertexStep(l, v, st, indexArg, conv.parseFloat(sl[i]), true);
  }

  /** One turn of the machine: the `switch` on the state for one value `r`. */
  method VertexStep(l: Layout, v: Vertex, st: VertexState, indexArg: nat, r: real, scaleColors: bool)
    returns (v': Vertex, st': VertexState, indexArg': nat)
    requires ValidLayout(l) && Reachable(l, st, indexArg)
    ensures Reachable(l, st', indexArg')
    ensures st == VsExit ==> v' == v && st' == VsExit
    ensures st != VsExit ==> v' == Store(v, CurrentSlot(st, indexArg), r, scaleColors)
    ensures st != VsExit ==> Cursor(l, st', indexArg') == Cursor(l, st, indexArg) + 1
  {
    v', st', indexArg' := v, st, indexArg;
    match st
    case VsPosition =>
      v' := v.(position := WithComponent(v.position, indexArg, r));
      indexArg' := indexArg + 1;
      if indexArg' == l.nbDim {
        if l.is4 { st' := VsPositionW; }
        else if l.normals { st' := VsNormal; }
        else if l.colors { st' := VsColor; }
        else if l.texcoords { st' := VsTexcoord; }
        else { st' := VsExit; }
        indexArg' := 0;
      }
    case VsPositionW =>
      v' := v.(position := WithComponent(v.position, 3, r));
      if l.normals { st' := VsNormal; }
      else if l.colors { st' := VsColor; }
      else if l.texcoords { st' := VsTexcoord; }
      else { st' := VsExit; }
      indexArg' := 0;
    case VsNormal =>
      v' := v.(normal := WithComponent(v.normal, indexArg, r));
      indexArg' := indexArg + 1;
      if indexArg' == l.nbDim {
        if l.is4 { st' := VsNormalW; }
        else if l.colors { st' := VsColor; }
        else if l.texcoords { st' := VsTexcoord; }
        else { st' := VsExit; }
        indexArg' := 0;
      }
    case VsNormalW =>
      v' := v.(normal := WithComponent(v.normal, 3, r));
      if l.colors { st' := VsColor; }
      else if l.texcoords { st' := VsTexcoord; }
      else { st' := VsExit; }
      indexArg' := 0;
    case VsColor =>
      var c := r;
      if scaleColors && c > 1.0 {
        c := c / 255.0;
      }
      v' := v.(color := WithComponent(v.color, indexArg, c));
      indexArg' := indexArg + 1;
      if indexArg' == 4 {
        if l.texcoords { st' := VsTexcoord; }
        else { st' := VsExit; }
        indexArg' := 0;
      }
    case VsTexcoord =>
      v' := v.(texcoord := WithComponent2(v.texcoord, indexArg, r));
      indexArg' := indexArg + 1;
      if indexArg' == 2 {
        st' := VsExit;
        indexArg' := 0;
      }
    case VsExit =>
  }

  // ---------------------------------------------------------------- vertex lines written

  /** The values the text writer prints for a vertex: x y z, then the normal's x y z, the
      colour's r g b a and the texture coordinate's u v as the flags ask. */
  function VertexValues(v: Vertex, d: Descriptor): (vals: seq<real>)
    ensures |vals| == 3 + (if d.normals then 3 else 0) + (if d.colors then 4 else 0) + (if d.texcoords then 2 else 0)
  {
    [v.position.x, v.position.y, v.position.z] +
    (if d.normals then [v.normal.x, v.normal.y, v.normal.z] else []) +
    (if d.colors then [v.color.x, v.color.y, v.color.z, v.color.w] else []) +
    (if d.texcoords then [v.texcoord.x, v.texcoord.y] else [])
  }

  /** Each value printed with the stream's default float format. */
  function Words(conv: Conv, vals: seq<real>): (ws: seq<string>)
    ensures |ws| == |vals| && forall j :: 0 <= j < |vals| ==> ws[j] == conv.formatFloat(vals[j])
  {
    seq(|vals|, j requires 0 <= j < |vals| => conv.formatFloat(vals[j]))
  }

  /** A vertex line of the text writer: the values separated by single spaces. */
  function VertexLine(conv: Conv, v: Vertex, d: Descriptor): string
  {
    Join(Words(conv, VertexValues(v, d)), ' ')
  }

  /** The layout the text reader takes from a descriptor without "4" or "n": three
      components. */
  function WriterLayout(d: Descriptor): (l: Layout)
    ensures ValidLayout(l)
  {
    Layout(3, false, d.normals, d.colors, d.texcoords)
  }

  /** A vertex whose written values say everything about it: w components are 1 and what
      the flags leave out has its default value. */
  predicate Describes(v: Vertex, d: Descriptor)
  {
    v.position.w == 1.0 &&
    (if d.normals then v.normal.w == 1.0 else v.normal == DEFAULT_VERTEX.normal) &&
    (d.colors || v.color == DEFAULT_VERTEX.color) &&
    (d.texcoords || v.texcoord == DEFAULT_VERTEX.texcoord)
  }

  /** The colour channels lie in [0, 1], so that a reader that rescales channels above 1
      leaves them alone. */
  predicate UnitColor(c: Vec4)
  {
    c.x <= 1.0 && c.y <= 1.0 && c.z <= 1.0 && c.w <= 1.0
  }

  /** A vertex whose written line says everything about it to the text reader. */
  predicate Representable(v: Vertex, d: Descriptor)
  {
    Describes(v, d) && (d.colors ==> UnitColor(v.color))
  }

  /** Storing the written values of a vertex rebuilds it, whether or not channels above 1
      are rescaled, as long as rescaling leaves the colour alone. */
  lemma VertexValuesRead(v: Vertex, d: Descriptor, scaleColors: bool)
    requires Describes(v, d) && (scaleColors && d.colors ==> UnitColor(v.color))
    ensures VertexOf(WriterLayout(d), VertexValues(v, d), scaleColors) == v
  {
    var l := WriterLayout(d);
    var ps, ns, cs, ts := PositionSlots(l), NormalSlots(l), ColorSlots(l), TexcoordSlots(l);
    var pv := [v.position.x, v.position.y, v.position.z];
    var nv := if d.normals then [v.normal.x, v.normal.y, v.normal.z] else [];
    var cv := if d.colors then [v.color.x, v.color.y, v.color.z, v.color.w] else [];
    var tv := if d.texcoords then [v.texcoord.x, v.texcoord.y] else [];
    assert ps == [PositionAt(0), PositionAt(1), PositionAt(2)];
    var v1 := FillFrom(DEFAULT_VERTEX, ps, pv, scaleColors);
    assert v1 == DEFAULT_VERTEX.(position := v.position) by {
      FillThree(DEFAULT_VERTEX, PositionAt(0), PositionAt(1), PositionAt(2), pv, scaleColors);
    }
    var v2 := FillFrom(v1, ns, nv, scaleColors);
    assert v2 == v1.(normal := v.normal) by {
      if d.normals {
        assert ns == [NormalAt(0), NormalAt(1), NormalAt(2)];
        FillThree(v1, NormalAt(0), NormalAt(1), NormalAt(2), nv, scaleColors);
      }
    }
    var v3 := FillFrom(v2, cs, cv, scaleColors);
    assert v3 == v2.(color := v.color) by {
      if d.colors {
        FillColors(v2, v.color, scaleColors);
      }
    }
    var v4 := FillFrom(v3, ts, tv, scaleColors);
    assert v4 == v by {
      if d.texcoords {
        assert ts == [TexcoordAt(0), TexcoordAt(1)];
        FillOne(v3, ts, tv, scaleColors);
        assert ts[1..] == [TexcoordAt(1)] && tv[1..] == [v.texcoord.y];
        FillOne(Store(v3, ts[0], tv[0], scaleColors), ts[1..], tv[1..], scaleColors);
        assert FillFrom(v3, ts, tv, scaleColors) == v3.(texcoord := v.texcoord);
      }
    }
    FillAppend(DEFAULT_VERTEX, ps, ns, pv, nv, scaleColors);
    FillAppend(DEFAULT_VERTEX, ps + ns, cs, pv + nv, cv, scaleColors);
    FillAppend(DEFAULT_VERTEX, ps + ns + cs, ts, pv + nv + cv, tv, scaleColors);
  }

  lemma FillThree(v: Vertex, a: Slot, b: Slot, c: Slot, vals: seq<real>, scaleColors: bool)
    requires ValidSlot(a) && ValidSlot(b) && ValidSlot(c) && |vals| == 3
    ensures FillFrom(v, [a, b, c], vals, scaleColors) ==
            Store(Store(Store(v, a, vals[0], scaleColors), b, vals[1], scaleColors), c, vals[2], scaleColors)
  {
    var v1 := Store(v, a, vals[0], scaleColors);
    var v2 := Store(v1, b, vals[1], scaleColors);
    var v3 := Store(v2, c, vals[2], scaleColors);
    FillOne(v, [a, b, c], vals, scaleColors);
    assert [a, b, c][1..] == [b, c];
    FillOne(v1, [b, c], vals[1..], scaleColors);
    assert [b, c][1..] == [c];
    FillOne(v2, [c], vals[2..], scaleColors);
    assert FillFrom(v3, [], vals[3..], scaleColors) == v3;
  }

  /** One step of `FillFrom`. */
  lemma FillOne(v: Vertex, slots: seq<Slot>, vals: seq<real>, scaleColors: bool)
    requires slots != [] && vals != [] && forall j :: 0 <= j < |slots| ==> ValidSlot(slots[j])
    ensures FillFrom(v, slots, vals, scaleColors) ==
            FillFrom(Store(v, slots[0], vals[0], scaleColors), slots[1..], vals[1..], scaleColors)
  {
  }

  lemma FillColors(v: Vertex, c: Vec4, scaleColors: bool)
    requires scaleColors ==> UnitColor(c)
    ensures FillFrom(v, [ColorAt(0), ColorAt(1), ColorAt(2), ColorAt(3)], [c.x, c.y, c.z, c.w], scaleColors) ==
            v.(color := c)
  {
    var s := [ColorAt(0), ColorAt(1), ColorAt(2), ColorAt(3)];
    var w := [c.x, c.y, c.z, c.w];
    assert s[1..] == [ColorAt(1), ColorAt(2), ColorAt(3)];
    assert w[1..] == [c.y, c.z, c.w];
    FillThree(Store(v, ColorAt(0), c.x, scaleColors), ColorAt(1), ColorAt(2), ColorAt(3), w[1..], scaleColors);
  }

  /** A vertex line of the text writer reads back as the vertex, through line cleaning, the
      space tokenizer, the number filter and the vertex machine, when every value prints
      exactly. */
  lemma VertexLineRoundTrip(conv: Conv, v: Vertex, d: Descriptor)
    requires Representable(v, d)
    requires forall j :: 0 <= j < |VertexValues(v, d)| ==> PrintsExactly(conv, VertexValues(v, d)[j])
    ensures CleanLine(VertexLine(conv, v, d)) == VertexLine(conv, v, d)
    ensures VertexOf(WriterLayout(d), ParseAll(conv, NumbersOnly(conv, Tokens(VertexLine(conv, v, d), " "))), true) == v
  {
    var vals := VertexValues(v, d);
    var ws := Words(conv, vals);
    forall j | 0 <= j < |ws|
      ensures ws[j] != [] && ' ' !in ws[j] && '\t' !in ws[j] && '#' !in ws[j] && '\0' !in ws[j]
      ensures conv.isNumber(ws[j])
    {
      assert PrintsExactly(conv, vals[j]);
    }
    TokensJoin(ws, ' ');
    CleanPlainWords(ws);
    NumbersOnlyAll(conv, ws);
    assert ParseAll(conv, ws) == vals;
    VertexValuesRead(v, d, true);
  }

  // ---------------------------------------------------------------- face lines

  /** The index count a face line declares, cut down to the number of tokens after it. */
  function DeclaredCount(conv: Conv, sl: seq<string>): (k: nat)
    requires sl != []
    ensures k < |sl| && k <= conv.parseUnsignedInt(sl[0])
    ensures conv.parseUnsignedInt(sl[0]) < |sl| ==> k == conv.parseUnsignedInt(sl[0])
  {
    var k := conv.parseUnsignedInt(sl[0]);
    if k > |sl| - 1 then |sl| - 1 else k
  }

  /** The index a token stands for: `parseInt`, converted to `size_t`. */
  function IndexValue(conv: Conv, t: string): SizeT
  {
    ToSizeT(conv.parseInt(t))
  }

  /** A token is kept as an index when it has no '.' and names an existing vertex. */
  predicate KeepsIndex(conv: Conv, t: string, nbVertices: nat)
  {
    '.' !in t && IndexValue(conv, t) < nbVertices
  }

  /** The indices kept from tokens 1 to k, in order. */
  function KeptIndices(conv: Conv, sl: seq<string>, k: nat, nbVertices: nat): (r: seq<nat>)
    requires k < |sl|
    ensures |r| <= k && forall j :: 0 <= j < |r| ==> r[j] < nbVertices
    decreases k
  {
    if k == 0 then []
    else KeptIndices(conv, sl, k - 1, nbVertices) +
         (if KeepsIndex(conv, sl[k], nbVertices) then [IndexValue(conv, sl[k]) as nat] else [])
  }

  /** A face colour given by three or four channels (alpha 1 when missing); when any channel
      is above 1 all four are divided by 255. */
  function FaceColor(r: real, g: real, b: real, a: real): (c: Vec4)
    ensures r <= 1.0 && g <= 1.0 && b <= 1.0 && a <= 1.0 ==> c == Vec4(r, g, b, a)
    ensures r > 1.0 || g > 1.0 || b > 1.0 || a > 1.0 ==> c == Vec4(r / 255.0, g / 255.0, b / 255.0, a / 255.0)
  {
    if r > 1.0 || g > 1.0 || b > 1.0 || a > 1.0 then Vec4(r / 255.0, g / 255.0, b / 255.0, a / 255.0)
    else Vec4(r, g, b, a)
  }

  /** What a face line leaves: the face, if one is kept, and whether it carries a colour. */
  datatype FaceRead = FaceRead(face: Option<Face>, faceColors: bool)

  /** The tokens after the indices colour a kept face: one token is a colour-map index, three
      or more are a colour; two are ignored. */
  function ColoredFace(conv: Conv, sl: seq<string>, k: nat, f: Face): (r: FaceRead)
    requires k < |sl|
    ensures r.face.Some? && r.face.value.indices == f.indices
    ensures r.faceColors <==> |sl| - (k + 1) == 1 || |sl| - (k + 1) >= 3
  {
    var extra := |sl| - (k + 1);
    if extra == 1 then FaceRead(Some(f.(colormapIndex := IndexValue(conv, sl[k + 1]))), true)
    else if extra >= 3 then
      var a := if extra >= 4 then conv.parseFloat(sl[k + 4]) else 1.0;
      FaceRead(Some(f.(color := FaceColor(conv.parseFloat(sl[k + 1]), conv.parseFloat(sl[k + 2]),
                                          conv.parseFloat(sl[k + 3]), a))), true)
    else FaceRead(Some(f), false)
  }

  /** The face a line of (number) tokens makes against `nbVertices` vertices: none for an
      empty line or fewer than three kept indices. */
  function FaceOf(conv: Conv, sl: seq<string>, nbVertices: nat): (r: FaceRead)
    ensures r.face.Some? ==> |r.face.value.indices| >= 3
    ensures r.face.Some? ==> forall j :: 0 <= j < |r.face.value.indices| ==> r.face.value.indices[j] < nbVertices
    ensures r.face.Some? <==> sl != [] && |KeptIndices(conv, sl, DeclaredCount(conv, sl), nbVertices)| >= 3
    ensures r.faceColors ==> r.face.Some?
  {
    if sl == [] then FaceRead(None, false)
    else
      var k := DeclaredCount(conv, sl);
      var ids := KeptIndices(conv, sl, k, nbVertices);
      if |ids| < 3 then FaceRead(None, false)
      else ColoredFace(conv, sl, k, DEFAULT_FACE.(indices := ids))
  }

  /** The face branch of `readOFF` for one line of (number) tokens. */
  method ReadFace(conv: Conv, sl: seq<string>, nbVertices: nat) returns (face: Option<Face>, faceColors: bool)
    ensures FaceRead(face, faceColors) == FaceOf(conv, sl, nbVertices)
  {
    face, faceColors := None, false;
    var nbArgs := |sl|;
    if nbArgs != 0 {
      var nbVertexIndex := conv.parseUnsignedInt(sl[0]) as nat;
      if nbVertexIndex > nbArgs - 1 {
        nbVertexIndex := nbArgs - 1;
      }
      var f := DEFAULT_FACE;
      for i := 1 to nbVertexIndex + 1
        invariant f == DEFAULT_FACE.(indices := KeptIndices(conv, sl, i - 1, nbVertices))
      {
        if '.' in sl[i] {
          continue;
        }
        var indexTmp := IndexValue(conv, sl[i]);
        if indexTmp >= nbVertices {
          continue;
        }
        f := f.(indices := f.indices + [indexTmp]);
      }
      if |f.indices| >= 3 {
        faceColors := false;
        if nbArgs > nbVertexIndex + 1 {
          var nbArgForColors := nbArgs - (nbVertexIndex + 1);
          if nbArgForColors == 1 {
            f := f.(colormapIndex := IndexValue(conv, sl[nbVertexIndex + 1]));
            faceColors := true;
          } else if nbArgForColors >= 3 {
            var a := if nbArgForColors >= 4 then conv.parseFloat(sl[nbVertexIndex + 4]) else 1.0;
            f := f.(color := FaceColor(conv.parseFloat(sl[nbVertexIndex + 1]),
                                       conv.parseFloat(sl[nbVertexIndex + 2]),
                                       conv.parseFloat(sl[nbVertexIndex + 3]), a));
            faceColors := true;
          }
        }
        face := Some(f);
      }
    }
  }

  // ---------------------------------------------------------------- face lines written

  /** The words of a face line of the text writer: the index count, the indices, then, when
      the model has face colours, the colour (for a face without colour-map index) or the
      colour-map index. */
  function FaceWords(conv: Conv, f: Face, hasFaceColors: bool): (ws: seq<string>)
  {
    [NatToDecimal(|f.indices|)] + Decimals(f.indices) + ColorWords(conv, f, hasFaceColors)
  }

  /** The words after the indices. */
  function ColorWords(conv: Conv, f: Face, hasFaceColors: bool): (ws: seq<string>)
  {
    if !hasFaceColors then []
    else if f.colormapIndex == NO_COLORMAP then Words(conv, [f.color.x, f.color.y, f.color.z, f.color.w])
    else [NatToDecimal(f.colormapIndex)]
  }

  function Decimals(ns: seq<nat>): (ws: seq<string>)
    ensures |ws| == |ns| && forall j :: 0 <= j < |ns| ==> ws[j] == NatToDecimal(ns[j])
  {
    seq(|ns|, j requires 0 <= j < |ns| => NatToDecimal(ns[j]))
  }

  function FaceLine(conv: Conv, f: Face, hasFaceColors: bool): string
  {
    Join(FaceWords(conv, f, hasFaceColors), ' ')
  }

  /** A face whose written line says everything about it, read against `nbVertices`. */
  predicate FaceRepresentable(conv: Conv, f: Face, hasFaceColors: bool, nbVertices: nat)
  {
    IndicesRepresentable(f, nbVertices) && ColorRepresentable(conv, f, hasFaceColors)
  }

  /** At least three indices, as many as an `unsigned int` counts, each a vertex that an `int`
      can name. */
  predicate IndicesRepresentable(f: Face, nbVertices: nat)
  {
    3 <= |f.indices| < 0x1_0000_0000 && nbVertices <= INT32_LIMIT &&
    (forall j :: 0 <= j < |f.indices| ==> f.indices[j] < nbVertices)
  }

  /** The colour part of a face survives its written words: channels in [0, 1] that print
      exactly, or a colour-map index an `int` holds, or no colour at all. */
  predicate ColorRepresentable(conv: Conv, f: Face, hasFaceColors: bool)
  {
    if hasFaceColors && f.colormapIndex == NO_COLORMAP then
      f.color.x <= 1.0 && f.color.y <= 1.0 && f.color.z <= 1.0 && f.color.w <= 1.0 &&
      PrintsExactly(conv, f.color.x) && PrintsExactly(conv, f.color.y) &&
      PrintsExactly(conv, f.color.z) && PrintsExactly(conv, f.color.w)
    else if hasFaceColors then f.colormapIndex < INT32_LIMIT && f.color == DEFAULT_FACE.color
    else f.colormapIndex == NO_COLORMAP && f.color == DEFAULT_FACE.color
  }

  /** A face line of the text writer reads back as the face, with the face-colour flag set
      exactly when the model has face colours. */
  lemma FaceLineRoundTrip(conv: Conv, f: Face, hasFaceColors: bool, nbVertices: nat)
    requires ReadsBackIntegers(conv) && FaceRepresentable(conv, f, hasFaceColors, nbVertices)
    ensures CleanLine(FaceLine(conv, f, hasFaceColors)) == FaceLine(conv, f, hasFaceColors)
    ensures FaceOf(conv, NumbersOnly(conv, Tokens(FaceLine(conv, f, hasFaceColors), " ")), nbVertices) ==
            FaceRead(Some(f), hasFaceColors)
  {
    var ws := FaceWords(conv, f, hasFaceColors);
    FaceWordsPlain(conv, f, hasFaceColors, nbVertices);
    TokensJoin(ws, ' ');
    CleanPlainWords(ws);
    NumbersOnlyAll(conv, ws);
    FaceWordsShape(conv, f, hasFaceColors);
    ColorWordsRead(conv, f, hasFaceColors, ws, |f.indices|);
    FaceOfWords(conv, f, hasFaceColors, nbVertices);
  }

  lemma FaceWordsPlain(conv: Conv, f: Face, hasFaceColors: bool, nbVertices: nat)
    requires ReadsBackIntegers(conv) && FaceRepresentable(conv, f, hasFaceColors, nbVertices)
    ensures var ws := FaceWords(conv, f, hasFaceColors);
      forall j :: 0 <= j < |ws| ==>
        ws[j] != [] && ' ' !in ws[j] && '\t' !in ws[j] && '#' !in ws[j] && '\0' !in ws[j] && conv.isNumber(ws[j])
  {
    var ws := FaceWords(conv, f, hasFaceColors);
    var n := |f.indices|;
    var tail := ColorWords(conv, f, hasFaceColors);
    FaceWordsShape(conv, f, hasFaceColors);
    ColorWordsPlain(conv, f, hasFaceColors);
    forall j | 0 <= j < |ws|
      ensures ws[j] != [] && ' ' !in ws[j] && '\t' !in ws[j] && '#' !in ws[j] && '\0' !in ws[j]
      ensures conv.isNumber(ws[j])
    {
      if j == 0 {
        DecimalWord(n);
      } else if j <= n {
        assert ws[j] == NatToDecimal(f.indices[j - 1]);
        DecimalWord(f.indices[j - 1]);
      } else {
        assert ws[j] == tail[j - n - 1];
      }
    }
  }

  /** The colour words of a face line are plain numbers. */
  lemma ColorWordsPlain(conv: Conv, f: Face, hasFaceColors: bool)
    requires ReadsBackIntegers(conv) && ColorRepresentable(conv, f, hasFaceColors)
    ensures var ws := ColorWords(conv, f, hasFaceColors);
      forall j :: 0 <= j < |ws| ==>
        ws[j] != [] && ' ' !in ws[j] && '\t' !in ws[j] && '#' !in ws[j] && '\0' !in ws[j] && conv.isNumber(ws[j])
  {
    var ws := ColorWords(conv, f, hasFaceColors);
    if hasFaceColors && f.colormapIndex == NO_COLORMAP {
      var cv := [f.color.x, f.color.y, f.color.z, f.color.w];
      forall j | 0 <= j < |ws|
        ensures ws[j] != [] && ' ' !in ws[j] && '\t' !in ws[j] && '#' !in ws[j] && '\0' !in ws[j]
        ensures conv.isNumber(ws[j])
      {
        assert ws[j] == conv.formatFloat(cv[j]);
        assert PrintsExactly(conv, cv[j]);
      }
    } else if hasFaceColors {
      DecimalWord(f.colormapIndex);
    }
  }

  /** The words of a face line make the face back. */
  lemma FaceOfWords(conv: Conv, f: Face, hasFaceColors: bool, nbVertices: nat)
    requires ReadsBackIntegers(conv) && IndicesRepresentable(f, nbVertices)
    requires ColoredFace(conv, FaceWords(conv, f, hasFaceColors), |f.indices|, DEFAULT_FACE.(indices := f.indices))
             == FaceRead(Some(f), hasFaceColors)
    ensures FaceOf(conv, FaceWords(conv, f, hasFaceColors), nbVertices) == FaceRead(Some(f), hasFaceColors)
  {
    FaceWordsKept(conv, f, hasFaceColors, nbVertices);
    FaceOfKept(conv, FaceWords(conv, f, hasFaceColors), nbVertices, |f.indices|, f.indices);
  }

  /** The words of a face line declare its index count and keep all its indices. */
  lemma FaceWordsKept(conv: Conv, f: Face, hasFaceColors: bool, nbVertices: nat)
    requires ReadsBackIntegers(conv) && IndicesRepresentable(f, nbVertices)
    ensures var ws := FaceWords(conv, f, hasFaceColors);
      ws != [] && DeclaredCount(conv, ws) == |f.indices| &&
      KeptIndices(conv, ws, |f.indices|, nbVertices) == f.indices
  {
    var ws := FaceWords(conv, f, hasFaceColors);
    var n := |f.indices|;
    assert f.indices[..n] == f.indices;
    FaceWordsShape(conv, f, hasFaceColors);
    assert DeclaredCount(conv, ws) == n;
    KeptAll(conv, ws, f.indices, n, nbVertices);
  }

  lemma FaceOfKept(conv: Conv, sl: seq<string>, nbVertices: nat, k: nat, ids: seq<nat>)
    requires sl != [] && DeclaredCount(conv, sl) == k && KeptIndices(conv, sl, k, nbVertices) == ids
    requires |ids| >= 3
    ensures FaceOf(conv, sl, nbVertices) == ColoredFace(conv, sl, k, DEFAULT_FACE.(indices := ids))
  {
  }

  lemma FaceWordsShape(conv: Conv, f: Face, hasFaceColors: bool)
    ensures var ws := FaceWords(conv, f, hasFaceColors);
      |ws| == |f.indices| + 1 + |ColorWords(conv, f, hasFaceColors)| &&
      ws[0] == NatToDecimal(|f.indices|) &&
      ws[|f.indices| + 1..] == ColorWords(conv, f, hasFaceColors) &&
      forall j :: 0 <= j < |f.indices| ==> ws[j + 1] == NatToDecimal(f.indices[j])
  {
    var ws := FaceWords(conv, f, hasFaceColors);
    var n := |f.indices|;
    var tail := ColorWords(conv, f, hasFaceColors);
    assert ws == [NatToDecimal(n)] + Decimals(f.indices) + tail;
    assert ws[n + 1..] == tail;
  }

  lemma ColorWordsRead(conv: Conv, f: Face, hasFaceColors: bool, ws: seq<string>, n: nat)
    requires ReadsBackIntegers(conv) && ColorRepresentable(conv, f, hasFaceColors)
    requires n < |ws| && ws[n + 1..] == ColorWords(conv, f, hasFaceColors)
    ensures ColoredFace(conv, ws, n, DEFAULT_FACE.(indices := f.indices)) == FaceRead(Some(f), hasFaceColors)
  {
    var tail := ColorWords(conv, f, hasFaceColors);
    assert forall j :: 0 <= j < |tail| ==> ws[n + 1 + j] == tail[j];
    if hasFaceColors && f.colormapIndex != NO_COLORMAP {
      assert IndexValue(conv, ws[n + 1]) == f.colormapIndex;
    } else if hasFaceColors {
      var cv := [f.color.x, f.color.y, f.color.z, f.color.w];
      assert PrintsExactly(conv, cv[0]) && PrintsExactly(conv, cv[1]);
      assert PrintsExactly(conv, cv[2]) && PrintsExactly(conv, cv[3]);
      assert conv.parseFloat(ws[n + 1]) == f.color.x;
      assert conv.parseFloat(ws[n + 2]) == f.color.y;
      assert conv.parseFloat(ws[n + 3]) == f.color.z;
      assert conv.parseFloat(ws[n + 4]) == f.color.w;
    }
  }

  /** Decimal index tokens below the vertex count are all kept, in order. */
  lemma {:induction false} KeptAll(conv: Conv, sl: seq<string>, ids: seq<nat>, k: nat, nbVertices: nat)
    requires ReadsBackIntegers(conv) && nbVertices <= INT32_LIMIT
    requires k <= |ids| && |ids| < |sl|
    requires forall j :: 0 <= j < |ids| ==> sl[j + 1] == NatToDecimal(ids[j])
    requires forall j :: 0 <= j < |ids| ==> ids[j] < nbVertices
    ensures KeptIndices(conv, sl, k, nbVertices) == ids[..k]
    decreases k
  {
    if k > 0 {
      KeptAll(conv, sl, ids, k - 1, nbVertices);
      DecimalWord(ids[k - 1]);
      assert conv.parseInt(sl[k]) == ids[k - 1];
      assert ids[..k] == ids[..k - 1] + [ids[k - 1]];
    }
  }
}
