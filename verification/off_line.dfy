/** Helpers of the OFF codec (off.cpp): `trim`, `endianSwap`, the 32-bit word reader and
    writer of the binary format, and the character loop `readline`. A stream is modelled
    as the bytes of the whole file and a read position. */
module OffLine {
  import opened Common
  import opened OffTypes

  // ---------------------------------------------------------------- trim

  predicate IsBlank(c: char) { c == ' ' || c == '\t' }

  /** Number of leading blanks (spaces and tabs) of `s`. */
  function LeadingBlanks(s: string): (k: nat)
    ensures k <= |s|
    ensures forall i :: 0 <= i < k ==> IsBlank(s[i])
    ensures k < |s| ==> !IsBlank(s[k])
    decreases |s|
  {
    if s != [] && IsBlank(s[0]) then 1 + LeadingBlanks(s[1..]) else 0
  }

  /** Length of `s` without its trailing blanks. */
  function WithoutTrailingBlanks(s: string): (e: nat)
    ensures e <= |s|
    ensures forall i :: e <= i < |s| ==> IsBlank(s[i])
    ensures e > 0 ==> !IsBlank(s[e - 1])
    decreases |s|
  {
    if s != [] && IsBlank(s[|s| - 1]) then WithoutTrailingBlanks(s[..|s| - 1]) else |s|
  }

  /** `trim`: `s` without its leading and trailing spaces and tabs. */
  function Trim(s: string): (r: string)
    ensures r == [] || (!IsBlank(r[0]) && !IsBlank(r[|r| - 1]))
    ensures LeadingBlanks(s) + |r| <= |s| && r == s[LeadingBlanks(s)..LeadingBlanks(s) + |r|]
    ensures forall i :: 0 <= i < |s| && !(LeadingBlanks(s) <= i < LeadingBlanks(s) + |r|) ==> IsBlank(s[i])
  {
    var b := LeadingBlanks(s);
    if b == |s| then []
    else
      var e := WithoutTrailingBlanks(s);
      assert b < e;
      s[b..e]
  }

  /** Trimming twice is trimming once. */
  lemma TrimIdempotent(s: string)
    ensures Trim(Trim(s)) == Trim(s)
  {
    var r := Trim(s);
    if r != [] {
      assert LeadingBlanks(r) == 0;
      assert WithoutTrailingBlanks(r) == |r|;
      assert r[0..|r|] == r;
    }
  }

  /** A text is trimmed to nothing exactly when it is all blanks. */
  lemma TrimEmpty(s: string)
    ensures Trim(s) == [] <==> forall i :: 0 <= i < |s| ==> IsBlank(s[i])
  {
    if Trim(s) != [] {
      var b := LeadingBlanks(s);
      assert !IsBlank(s[b]);
    }
  }

  // ---------------------------------------------------------------- 32-bit words

  /** The four bytes of a word as a little-endian host stores it (what `fout.write` of an
      `unsigned int` emits), least significant first. */
  function HostBytes(w: U32): (bs: seq<byte>)
    ensures |bs| == 4
  {
    [w % 0x100, (w / 0x100) % 0x100, (w / 0x1_0000) % 0x100, w / 0x100_0000]
  }

  /** The word whose host bytes are `bs` (what `fin.read` into an `unsigned int` yields). */
  function HostWord(bs: seq<byte>): (w: U32)
    requires |bs| == 4
    ensures HostBytes(w) == bs
  {
    var b0, b1, b2, b3: int := bs[0], bs[1], bs[2], bs[3];
    var w := b0 + 0x100 * b1 + 0x1_0000 * b2 + 0x100_0000 * b3;
    DivMod(w, b1 + 0x100 * b2 + 0x1_0000 * b3, b0, 0x100);
    DivMod(b1 + 0x100 * b2 + 0x1_0000 * b3, b2 + 0x100 * b3, b1, 0x100);
    DivMod(w, b2 + 0x100 * b3, b0 + 0x100 * b1, 0x1_0000);
    DivMod(b2 + 0x100 * b3, b3, b2, 0x100);
    DivMod(w, b3, b0 + 0x100 * b1 + 0x1_0000 * b2, 0x100_0000);
    w
  }

  /** Quotient and remainder by one of the byte weights are determined by any decomposition
      `x == q * d + r` with `0 <= r < d`. */
  lemma DivMod(x: int, q: int, r: int, d: int)
    requires d == 0x100 || d == 0x1_0000 || d == 0x100_0000
    requires 0 <= r < d && x == q * d + r
    ensures x / d == q && x % d == r
  {
    if d == 0x100 {
      assert x == q * 0x100 + r;
    } else if d == 0x1_0000 {
      assert x == q * 0x1_0000 + r;
    } else {
      assert x == q * 0x100_0000 + r;
    }
  }

  /** Bytes and words correspond one to one. */
  lemma HostWordBytes(w: U32)
    ensures HostWord(HostBytes(w)) == w
  {
    var x: int := w;
    var q1, b0 := x / 0x100, x % 0x100;
    var q2, b1 := q1 / 0x100, q1 % 0x100;
    var b3, b2 := q2 / 0x100, q2 % 0x100;
    DivMod(x, b1 + 0x100 * b2 + 0x1_0000 * b3, b0, 0x100);
    DivMod(x, b2 + 0x100 * b3, b0 + 0x100 * b1, 0x1_0000);
    DivMod(x, b3, b0 + 0x100 * b1 + 0x1_0000 * b2, 0x100_0000);
    assert HostBytes(w) == [b0 as byte, b1 as byte, b2 as byte, b3 as byte];
  }

  /** `endianSwap`: the word whose bytes are those of `x` in the opposite order. */
  function EndianSwap(x: U32): (y: U32)
    ensures var b, c := HostBytes(x), HostBytes(y); c == [b[3], b[2], b[1], b[0]]
  {
    var b := HostBytes(x);
    HostWord([b[3], b[2], b[1], b[0]])
  }

  /** Swapping twice gives the word back. */
  lemma EndianSwapInvolution(x: U32)
    ensures EndianSwap(EndianSwap(x)) == x
  {
    HostWordBytes(x);
    HostWordBytes(EndianSwap(EndianSwap(x)));
  }

  /** `writeInt`: the bytes written for `src` (an `int`; wider values are truncated to 32
      bits on the way in), byte-swapped first when `bigEndian`. */
  function WriteInt(src: int, bigEndian: bool): (bs: seq<byte>)
    ensures |bs| == 4
    ensures var h := HostBytes(ToU32(src)); bs == (if bigEndian then [h[3], h[2], h[1], h[0]] else h)
  {
    var target := ToU32(src);
    HostBytes(if bigEndian then EndianSwap(target) else target)
  }

  /** `writeFloat`: the bytes of the float's bit pattern, byte-swapped when `bigEndian`. */
  function WriteFloat(conv: Conv, src: real, bigEndian: bool): (bs: seq<byte>)
    ensures |bs| == 4
    ensures var h := HostBytes(ToU32(conv.bitsOfFloat(src)));
      bs == (if bigEndian then [h[3], h[2], h[1], h[0]] else h)
  {
    WriteInt(conv.bitsOfFloat(src), bigEndian)
  }

  /** The word `readInt`/`readFloat` decode from the four bytes at `offset`. */
  function WordAt(data: seq<byte>, offset: nat, bigEndian: bool): U32
    requires offset + 4 <= |data|
  {
    var target := HostWord(data[offset..offset + 4]);
    if bigEndian then EndianSwap(target) else target
  }

  /** Big-endian output puts the most significant byte first. */
  lemma WriteIntBigEndian(src: int)
    ensures var u := ToU32(src);
      WriteInt(src, true) == [u / 0x100_0000, (u / 0x1_0000) % 0x100, (u / 0x100) % 0x100, u % 0x100]
  {
  }

  /** `readInt` after `writeInt` with the same byte order returns the value written,
      truncated to 32 bits. */
  lemma WordRoundTrip(src: int, bigEndian: bool, before: seq<byte>, after: seq<byte>)
    ensures var data := before + WriteInt(src, bigEndian) + after;
      AsInt32(WordAt(data, |before|, bigEndian)) == Wrap32(src)
  {
    var data := before + WriteInt(src, bigEndian) + after;
    var target := ToU32(src);
    var w := if bigEndian then EndianSwap(target) else target;
    assert data[|before|..|before| + 4] == HostBytes(w);
    HostWordBytes(w);
    EndianSwapInvolution(target);
  }

  /** `readInt`: when fewer than four bytes remain before `fileSize` it returns 0 and leaves
      the offset alone; otherwise it decodes the next word (an `int`) and moves on by four. The
      stream position and `startOffset` are the same number here. */
  method ReadInt(data: seq<byte>, fileSize: int, startOffset: nat, bigEndian: bool)
    returns (value: Int32, offset': nat)
    requires fileSize == |data|
    ensures startOffset + 4 > fileSize ==> value == 0 && offset' == startOffset
    ensures startOffset + 4 <= fileSize ==>
      offset' == startOffset + 4 && value == AsInt32(WordAt(data, startOffset, bigEndian))
  {
    var nbBytes := 4;
    if startOffset + nbBytes > fileSize {
      return 0, startOffset;
    }
    var buffer := data[startOffset..startOffset + nbBytes];
    offset' := startOffset + nbBytes;
    var target := HostWord(buffer);
    if bigEndian {
      target := EndianSwap(target);
    }
    value := AsInt32(target);
  }

  /** `readFloat`: as `readInt`, reading the word as a float's bit pattern; 0.0 past the end. */
  method ReadFloat(conv: Conv, data: seq<byte>, fileSize: int, startOffset: nat, bigEndian: bool)
    returns (value: real, offset': nat)
    requires fileSize == |data|
    ensures startOffset + 4 > fileSize ==> value == 0.0 && offset' == startOffset
    ensures startOffset + 4 <= fileSize ==>
      offset' == startOffset + 4 && value == conv.floatOfBits(WordAt(data, startOffset, bigEndian))
  {
    var nbBytes := 4;
    if startOffset + nbBytes > fileSize {
      return 0.0, startOffset;
    }
    var buffer := data[startOffset..startOffset + nbBytes];
    offset' := startOffset + nbBytes;
    var target := HostWord(buffer);
    if bigEndian {
      target := EndianSwap(target);
    }
    value := conv.floatOfBits(target);
  }

  // ---------------------------------------------------------------- readline

  const EOF: int := -1
  const NUL: byte := 0
  const TAB: byte := 9
  const LF: byte := 10
  const CR: byte := 13
  const SPACE: byte := 32
  const BACKSLASH: byte := 92

  /** The buffer size both readers pass to `readline`. */
  const LINE_SIZE: int := 4096

  /** `fin.get()`: the next byte, or EOF with the fail flag set at the end of the data. */
  method Get(data: seq<byte>, pos: nat, fail: bool) returns (c: int, pos': nat, fail': bool)
    requires pos <= |data|
    ensures pos < |data| && !fail ==> c == data[pos] && pos' == pos + 1 && fail' == fail
    ensures !(pos < |data| && !fail) ==> c == EOF && pos' == pos && fail'
  {
    if pos < |data| && !fail {
      return data[pos], pos + 1, fail;
    }
    return EOF, pos, true;
  }

  /** `fin.peek()`: the next byte without consuming it, or EOF. */
  function Peek(data: seq<byte>, pos: nat): (p: int)
    ensures pos < |data| ==> p == data[pos]
    ensures pos >= |data| ==> p == EOF
  {
    if pos < |data| then data[pos] else EOF
  }

  function Chars(bs: seq<byte>): (s: string)
    ensures |s| == |bs| && forall i :: 0 <= i < |bs| ==> s[i] == bs[i] as char
  {
    seq(|bs|, i requires 0 <= i < |bs| => bs[i] as char)
  }

  /** `s` without its leading spaces and tabs. */
  function DropLeadingBlanks(s: string): string
  {
    s[LeadingBlanks(s)..]
  }

  /** A byte that `readline` copies as it is, outside leading white space. */
  predicate PlainByte(b: byte)
  {
    b != CR && b != LF && b != BACKSLASH && b != NUL && b != TAB
  }

  /** A line ending at `k`: LF (Unix), CR (Mac), or CR followed by LF (Windows). */
  predicate LineEnd(data: seq<byte>, k: nat)
  {
    k < |data| && (data[k] == LF || data[k] == CR)
  }

  /** Where reading goes on after the line ending at `k`: past the LF of a CR LF pair too. */
  function EndAfter(data: seq<byte>, k: nat): (e: nat)
    requires k < |data|
    ensures k < e <= |data|
  {
    if data[k] == CR && k + 1 < |data| && data[k + 1] == LF then k + 2 else k + 1
  }

  /** From `pos`, the data holds a line of plain bytes ended at `k` that fits the buffer. */
  predicate PlainLine(data: seq<byte>, pos: nat, k: nat, lineSize: int)
  {
    pos <= k && LineEnd(data, k) && k - pos < lineSize - 1 &&
    forall i :: pos <= i < k ==> PlainByte(data[i])
  }

  /** From `pos`, the data holds plain bytes, a backslash and an LF at `b`, at least one more
      plain byte, and a line ending at `k`, all fitting the buffer: a line continued once. */
  predicate ContinuedLine(data: seq<byte>, pos: nat, b: nat, k: nat, lineSize: int)
  {
    pos <= b && b + 2 < k && LineEnd(data, k) && data[b] == BACKSLASH && data[b + 1] == LF &&
    k - pos < lineSize - 1 &&
    (forall i :: pos <= i < b ==> PlainByte(data[i])) &&
    (forall i :: b + 2 <= i < k ==> PlainByte(data[i]))
  }

  /** The characters of `line` before its first NUL: the `std::string` built from the buffer. */
  function CutAtNul(line: string): (s: string)
    ensures |s| <= |line| && s == line[..|s|]
    ensures forall i :: 0 <= i < |s| ==> s[i] != '\0'
    ensures |s| < |line| ==> line[|s|] == '\0'
    decreases |line|
  {
    if line == [] || line[0] == '\0' then [] else [line[0]] + CutAtNul(line[1..])
  }

  /** `readline`: reads one line into a buffer of `lineSize` characters. It copies the
      bytes up to the first line ending (LF, CR or CR LF, which is consumed) or until the buffer
      is full or the stream fails. A backslash right before a line ending joins the next line,
      the ending being written as a space. In text mode it also drops leading spaces and tabs,
      strips trailing spaces, and turns tabs before the first NUL into spaces. It returns false,
      reading nothing, when `lineSize < 1`. */
  method ReadLine(data: seq<byte>, pos: nat, fail: bool, lineSize: int, isBinary: bool)
    returns (ok: bool, line: string, pos': nat, fail': bool)
    requires pos <= |data|
    ensures ok <==> lineSize >= 1
    ensures pos <= pos' <= |data|
    ensures ok ==> |line| <= lineSize - 1
    ensures |line| <= pos' - pos
    ensures !ok ==> line == [] && pos' == pos && fail' == fail
    ensures fail ==> line == [] && pos' == pos && fail'
    ensures lineSize >= 2 && !fail ==> pos' > pos || fail'
    ensures forall i :: 0 <= i < |line| ==> line[i] != '\r' && line[i] != '\n'
    ensures !isBinary ==> forall i :: 0 <= i < |CutAtNul(line)| ==> CutAtNul(line)[i] != '\t'
    ensures forall k: nat :: PlainLine(data, pos, k, lineSize) && !fail ==>
      pos' == EndAfter(data, k) && !fail' &&
      line == (if isBinary then CopiedText(data, pos, k, isBinary)
               else var d := CopiedText(data, pos, k, isBinary); d[..WithoutTrailingSpaces(d)])
    ensures forall b: nat, k: nat :: ContinuedLine(data, pos, b, k, lineSize) && !fail ==>
      pos' == EndAfter(data, k) && !fail' &&
      line == (if isBinary then JoinedText(data, pos, b, k, isBinary)
               else var d := JoinedText(data, pos, b, k, isBinary); d[..WithoutTrailingSpaces(d)])
  {
    if lineSize < 1 {
      return false, [], pos, fail;
    }
    ok := true;
    line, pos', fail' := ReadChars(data, pos, fail, lineSize, isBinary);
    if !isBinary {
      ghost var copied := line;
      line := StripTrailingSpaces(line);
      ghost var stripped := line;
      line := TabsToSpaces(line);
      forall k: nat | PlainLine(data, pos, k, lineSize) && !fail
        ensures line == stripped
      {
        assert forall i :: 0 <= i < |copied| ==> copied[i] != '\t';
        StrippedTabFree(copied, stripped, line);
      }
      forall b: nat, k: nat | ContinuedLine(data, pos, b, k, lineSize) && !fail
        ensures line == stripped
      {
        JoinedNoTab(data, pos, b, k, isBinary);
        StrippedTabFree(copied, stripped, line);
      }
    }
  }

  /** Turning tabs into spaces leaves a tab-free line with its trailing spaces stripped as it is. */
  lemma StrippedTabFree(copied: string, stripped: string, line: string)
    requires forall i :: 0 <= i < |copied| ==> copied[i] != '\t'
    requires stripped == copied[..WithoutTrailingSpaces(copied)]
    requires |line| == |stripped|
    requires forall i :: 0 <= i < |stripped| ==>
      line[i] == (if i < |CutAtNul(stripped)| && stripped[i] == '\t' then ' ' else stripped[i])
    ensures line == stripped
  {
    assert forall i :: 0 <= i < |stripped| ==> stripped[i] == copied[i];
  }

  /** Length of `s` without its trailing spaces (tabs are kept). */
  function WithoutTrailingSpaces(s: string): (e: nat)
    ensures e <= |s|
    ensures forall i :: e <= i < |s| ==> s[i] == ' '
    ensures e > 0 ==> s[e - 1] != ' '
    decreases |s|
  {
    if s != [] && s[|s| - 1] == ' ' then WithoutTrailingSpaces(s[..|s| - 1]) else |s|
  }

  /** The variables of the copying loop of `readline`: the characters copied so far, the
      stream (position and fail flag) and the three flags. */
  datatype CopyState = CopyState(line: string, pos: nat, fail: bool,
                                 eatWhiteSpaceAtStart: bool, skipNewline: bool, done: bool)

  /** The text `readline` has copied from the plain bytes `data[pos..cur]`. */
  function CopiedText(data: seq<byte>, pos: nat, cur: nat, isBinary: bool): string
    requires pos <= cur <= |data|
  {
    if isBinary then Chars(data[pos..cur]) else DropLeadingBlanks(Chars(data[pos..cur]))
  }

  /** Whether white space is still being eaten after the plain bytes `data[from..cur]`. */
  predicate Eating(data: seq<byte>, from: nat, cur: nat, isBinary: bool)
    requires from <= cur <= |data|
  {
    !isBinary && LeadingBlanks(Chars(data[from..cur])) == cur - from
  }

  /** What `readline` copies from a continued line: the text before the backslash, a space
      for the joined ending, and the text after it, whose leading blanks are dropped too when
      nothing but blanks came before. */
  function JoinedText(data: seq<byte>, pos: nat, b: nat, k: nat, isBinary: bool): string
    requires pos <= b && b + 2 <= k <= |data|
  {
    CopiedText(data, pos, b, isBinary) + [' '] + CopiedText(data, b + 2, k, !Eating(data, pos, b, isBinary))
  }

  /** Text copied from plain bytes holds no tab, and neither does a joined line. */
  lemma JoinedNoTab(data: seq<byte>, pos: nat, b: nat, k: nat, isBinary: bool)
    requires pos <= b && b + 2 <= k <= |data|
    requires forall i :: pos <= i < b ==> PlainByte(data[i])
    requires forall i :: b + 2 <= i < k ==> PlainByte(data[i])
    ensures forall i :: 0 <= i < |JoinedText(data, pos, b, k, isBinary)| ==> JoinedText(data, pos, b, k, isBinary)[i] != '\t'
  {
    var t1, t2 := CopiedText(data, pos, b, isBinary), CopiedText(data, b + 2, k, !Eating(data, pos, b, isBinary));
    assert forall i :: 0 <= i < |t1| ==> t1[i] != '\t';
    assert forall i :: 0 <= i < |t2| ==> t2[i] != '\t';
  }

  /** The copying loop of `readline`. */
  method ReadChars(data: seq<byte>, pos: nat, fail: bool, lineSize: int, isBinary: bool)
    returns (line: string, pos': nat, fail': bool)
    requires pos <= |data| && lineSize >= 1
    ensures pos <= pos' <= |data|
    ensures |line| <= lineSize - 1 && |line| <= pos' - pos
    ensures fail ==> line == [] && pos' == pos && fail'
    ensures lineSize >= 2 && !fail ==> pos' > pos || fail'
    ensures forall i :: 0 <= i < |line| ==> line[i] != '\r' && line[i] != '\n'
    ensures forall k: nat :: PlainLine(data, pos, k, lineSize) && !fail ==>
      pos' == EndAfter(data, k) && !fail' && line == CopiedText(data, pos, k, isBinary)
    ensures forall b: nat, k: nat :: ContinuedLine(data, pos, b, k, lineSize) && !fail ==>
      pos' == EndAfter(data, k) && !fail' && line == JoinedText(data, pos, b, k, isBinary)
  {
    var st := CopyState([], pos, fail, !isBinary, false, false);
    while !st.fail && |st.line| < lineSize - 1 && !st.done
      invariant pos <= st.pos <= |data|
      invariant |st.line| <= lineSize - 1 && |st.line| <= st.pos - pos
      invariant fail ==> st.line == [] && st.pos == pos && st.fail
      invariant !fail && st.pos == pos && !st.fail ==> !st.done
      invariant forall i :: 0 <= i < |st.line| ==> st.line[i] != '\r' && st.line[i] != '\n'
      invariant forall k: nat :: PlainLine(data, pos, k, lineSize) && !fail ==> PlainAt(data, pos, k, isBinary, st)
      invariant forall b: nat, k: nat :: ContinuedLine(data, pos, b, k, lineSize) && !fail ==>
        ContinuedAt(data, pos, b, k, isBinary, st)
      decreases |data| - st.pos, if st.fail then 0 else 1, if st.done then 0 else 1
    {
      ghost var before := st;
      st := CopyOne(data, st);
      forall k: nat | PlainLine(data, pos, k, lineSize) && !fail
        ensures PlainAt(data, pos, k, isBinary, st)
      {
        PlainStep(data, pos, k, lineSize, isBinary, before, st);
      }
      forall b: nat, k: nat | ContinuedLine(data, pos, b, k, lineSize) && !fail
        ensures ContinuedAt(data, pos, b, k, isBinary, st)
      {
        ContinuedStep(data, pos, b, k, lineSize, isBinary, before, st);
      }
    }
    line, pos', fail' := st.line, st.pos, st.fail;
  }

  /** The copying loop has read the plain bytes from `from` to its position, after having
      copied `prefix`, with no ending pending; `noEat` is false while leading white space is
      being dropped. */
  ghost predicate CopiedSince(data: seq<byte>, from: nat, noEat: bool, prefix: string, st: CopyState)
    requires from <= st.pos <= |data|
  {
    !st.done && !st.fail && !st.skipNewline &&
    st.eatWhiteSpaceAtStart == Eating(data, from, st.pos, noEat) &&
    st.line == prefix + CopiedText(data, from, st.pos, noEat)
  }

  /** A turn on a plain byte copies it like the text before it, whatever was pending. */
  lemma CopyPlain(data: seq<byte>, from: nat, noEat: bool, prefix: string, before: CopyState, st: CopyState)
    requires from <= before.pos < |data| && PlainByte(data[before.pos])
    requires !before.done && !before.fail && before.eatWhiteSpaceAtStart == Eating(data, from, before.pos, noEat)
    requires before.line == prefix + CopiedText(data, from, before.pos, noEat)
    requires Turn(data, before, st)
    ensures st.pos == before.pos + 1 && CopiedSince(data, from, noEat, prefix, st)
  {
    if before.eatWhiteSpaceAtStart && data[before.pos] == SPACE {
      EatBlank(data, from, noEat, prefix, before, st);
    } else {
      KeepByte(data, from, noEat, prefix, before, st);
    }
  }

  /** A blank met while leading white space is being eaten is dropped. */
  lemma EatBlank(data: seq<byte>, from: nat, noEat: bool, prefix: string, before: CopyState, st: CopyState)
    requires from <= before.pos < |data| && data[before.pos] == SPACE
    requires !before.done && !before.fail && before.eatWhiteSpaceAtStart
    requires before.eatWhiteSpaceAtStart == Eating(data, from, before.pos, noEat)
    requires before.line == prefix + CopiedText(data, from, before.pos, noEat)
    requires Turn(data, before, st)
    ensures st.pos == before.pos + 1 && CopiedSince(data, from, noEat, prefix, st)
  {
    assert st == before.(pos := before.pos + 1, skipNewline := false);
    CopyText(data, from, before.pos, noEat);
  }

  /** A plain byte met once leading white space is over, or not a blank, is copied. */
  lemma KeepByte(data: seq<byte>, from: nat, noEat: bool, prefix: string, before: CopyState, st: CopyState)
    requires from <= before.pos < |data| && PlainByte(data[before.pos])
    requires !(before.eatWhiteSpaceAtStart && data[before.pos] == SPACE)
    requires !before.done && !before.fail && before.eatWhiteSpaceAtStart == Eating(data, from, before.pos, noEat)
    requires before.line == prefix + CopiedText(data, from, before.pos, noEat)
    requires Turn(data, before, st)
    ensures st.pos == before.pos + 1 && CopiedSince(data, from, noEat, prefix, st)
  {
    var c, cur := data[before.pos], before.pos;
    assert st == before.(pos := cur + 1, skipNewline := false, eatWhiteSpaceAtStart := false,
                         line := before.line + [c as char]);
    CopyText(data, from, cur, noEat);
    var text := CopiedText(data, from, cur, noEat);
    if noEat {
      assert CopiedText(data, from, cur + 1, noEat) == text + [c as char];
    } else if before.eatWhiteSpaceAtStart {
      assert text == [] && CopiedText(data, from, cur + 1, noEat) == [c as char];
      assert !Eating(data, from, cur + 1, noEat);
    } else {
      assert CopiedText(data, from, cur + 1, noEat) == text + [c as char];
      assert !Eating(data, from, cur + 1, noEat);
    }
    AppendAssoc(prefix, text, [c as char]);
  }

  /** A turn on a line ending with nothing pending ends the line past the ending. */
  lemma EndTurn(data: seq<byte>, k: nat, before: CopyState, st: CopyState)
    requires before.pos == k && LineEnd(data, k) && !before.skipNewline && !before.fail
    requires Turn(data, before, st)
    ensures st.pos == EndAfter(data, k) && st.done && !st.fail && st.line == before.line
  {
  }

  /** Where the copying loop stands on a plain line ending at `k`: before the ending it has
      copied exactly the text read so far, with no pending backslash; after it, it is done. */
  ghost predicate PlainAt(data: seq<byte>, pos: nat, k: nat, isBinary: bool, st: CopyState)
    requires pos <= k < |data|
  {
    pos <= st.pos <= EndAfter(data, k) && !st.fail &&
    (st.pos <= k ==> CopiedSince(data, pos, isBinary, [], st)) &&
    (st.pos > k ==> st.pos == EndAfter(data, k) && st.done && st.line == CopiedText(data, pos, k, isBinary))
  }

  /** One turn of the loop keeps `PlainAt`. */
  lemma PlainStep(data: seq<byte>, pos: nat, k: nat, lineSize: int, isBinary: bool,
                  before: CopyState, st: CopyState)
    requires PlainLine(data, pos, k, lineSize) && PlainAt(data, pos, k, isBinary, before)
    requires !before.done && Turn(data, before, st)
    ensures PlainAt(data, pos, k, isBinary, st)
  {
    assert CopiedSince(data, pos, isBinary, [], before);
    if before.pos < k {
      CopyPlain(data, pos, isBinary, [], before, st);
    } else {
      EndTurn(data, k, before, st);
      assert before.line == CopiedText(data, pos, k, isBinary);
    }
  }

  /** Where the copying loop stands on a continued line: before the backslash as on a plain
      line; after it with the ending pending; after the LF with a space copied, and then with
      the text after it. */
  ghost predicate ContinuedAt(data: seq<byte>, pos: nat, b: nat, k: nat, isBinary: bool, st: CopyState)
    requires pos <= b && b + 2 < k < |data|
  {
    pos <= st.pos <= EndAfter(data, k) && !st.fail &&
    (st.pos <= b ==> CopiedSince(data, pos, isBinary, [], st)) &&
    (st.pos == b + 1 ==> (!st.done && st.skipNewline &&
      st.eatWhiteSpaceAtStart == Eating(data, pos, b, isBinary) &&
      st.line == CopiedText(data, pos, b, isBinary))) &&
    (st.pos == b + 2 ==> (!st.done && st.skipNewline &&
      st.eatWhiteSpaceAtStart == Eating(data, pos, b, isBinary) &&
      st.line == CopiedText(data, pos, b, isBinary) + [' '])) &&
    (b + 2 < st.pos <= k ==>
      CopiedSince(data, b + 2, !Eating(data, pos, b, isBinary), CopiedText(data, pos, b, isBinary) + [' '], st)) &&
    (st.pos > k ==> st.pos == EndAfter(data, k) && st.done && st.line == JoinedText(data, pos, b, k, isBinary))
  }

  /** One turn of the loop keeps `ContinuedAt`. */
  lemma ContinuedStep(data: seq<byte>, pos: nat, b: nat, k: nat, lineSize: int, isBinary: bool,
                      before: CopyState, st: CopyState)
    requires ContinuedLine(data, pos, b, k, lineSize) && ContinuedAt(data, pos, b, k, isBinary, before)
    requires !before.done && Turn(data, before, st)
    ensures ContinuedAt(data, pos, b, k, isBinary, st)
  {
    if before.pos <= b {
      ContinuedFirstPart(data, pos, b, k, lineSize, isBinary, before, st);
    } else if before.pos == b + 1 {
      ContinuedJoin(data, pos, b, k, lineSize, isBinary, before, st);
    } else if before.pos == b + 2 {
      ContinuedResume(data, pos, b, k, lineSize, isBinary, before, st);
    } else {
      ContinuedSecondPart(data, pos, b, k, lineSize, isBinary, before, st);
    }
  }

  /** Up to the backslash, a turn copies a plain byte or reads the backslash. */
  lemma ContinuedFirstPart(data: seq<byte>, pos: nat, b: nat, k: nat, lineSize: int, isBinary: bool,
                           before: CopyState, st: CopyState)
    requires ContinuedLine(data, pos, b, k, lineSize) && ContinuedAt(data, pos, b, k, isBinary, before)
    requires before.pos <= b && Turn(data, before, st)
    ensures ContinuedAt(data, pos, b, k, isBinary, st)
  {
    assert CopiedSince(data, pos, isBinary, [], before);
    if before.pos < b {
      CopyPlain(data, pos, isBinary, [], before, st);
    }
  }

  /** After the backslash, a turn reads the line feed as one space. */
  lemma ContinuedJoin(data: seq<byte>, pos: nat, b: nat, k: nat, lineSize: int, isBinary: bool,
                      before: CopyState, st: CopyState)
    requires ContinuedLine(data, pos, b, k, lineSize) && ContinuedAt(data, pos, b, k, isBinary, before)
    requires before.pos == b + 1 && Turn(data, before, st)
    ensures ContinuedAt(data, pos, b, k, isBinary, st)
  {
    assert data[before.pos] == LF && before.skipNewline;
    assert st == before.(pos := b + 2, line := before.line + [' ']);
  }

  /** After the joined ending, a turn copies the first byte of the second part. */
  lemma ContinuedResume(data: seq<byte>, pos: nat, b: nat, k: nat, lineSize: int, isBinary: bool,
                        before: CopyState, st: CopyState)
    requires ContinuedLine(data, pos, b, k, lineSize) && ContinuedAt(data, pos, b, k, isBinary, before)
    requires before.pos == b + 2 && Turn(data, before, st)
    ensures ContinuedAt(data, pos, b, k, isBinary, st)
  {
    var noEat := !Eating(data, pos, b, isBinary);
    assert CopiedText(data, b + 2, b + 2, noEat) == [];
    assert !noEat == Eating(data, b + 2, b + 2, noEat);
    CopyPlain(data, b + 2, noEat, CopiedText(data, pos, b, isBinary) + [' '], before, st);
  }

  /** In the second part, a turn copies a plain byte or ends the line. */
  lemma ContinuedSecondPart(data: seq<byte>, pos: nat, b: nat, k: nat, lineSize: int, isBinary: bool,
                            before: CopyState, st: CopyState)
    requires ContinuedLine(data, pos, b, k, lineSize) && ContinuedAt(data, pos, b, k, isBinary, before)
    requires b + 2 < before.pos && !before.done && Turn(data, before, st)
    ensures ContinuedAt(data, pos, b, k, isBinary, st)
  {
    var noEat := !Eating(data, pos, b, isBinary);
    var pre := CopiedText(data, pos, b, isBinary) + [' '];
    assert CopiedSince(data, b + 2, noEat, pre, before);
    if before.pos < k {
      CopyPlain(data, b + 2, noEat, pre, before, st);
    } else {
      EndTurn(data, k, before, st);
    }
  }


  /** One turn of the copying loop, branch by branch. At the end of the data the stream fails
      and nothing else changes. A CR (with the LF after it, if any) or an LF ends the line,
      unless a backslash came right before it: then a space is copied and the line goes on (a
      CR clears the pending backslash, an LF keeps it). A backslash before CR or LF is not
      copied and leaves the ending pending. Any other byte clears the pending backslash and is
      copied, unless it is a space or tab while leading white space is being eaten. */
  ghost predicate Turn(data: seq<byte>, st: CopyState, st': CopyState)
    requires st.pos <= |data|
  {
    if st.pos == |data| then st' == st.(fail := true)
    else
      var c, next := data[st.pos], Peek(data, st.pos + 1);
      if c == CR then
        var after := if next == LF then st.pos + 2 else st.pos + 1;
        if st.skipNewline then st' == st.(pos := after, skipNewline := false, line := st.line + [' '])
        else st' == st.(pos := after, done := true)
      else if c == LF then
        if st.skipNewline then st' == st.(pos := st.pos + 1, line := st.line + [' '])
        else st' == st.(pos := st.pos + 1, done := true)
      else if c == BACKSLASH && (next == CR || next == LF) then
        st' == st.(pos := st.pos + 1, skipNewline := true)
      else if st.eatWhiteSpaceAtStart && (c == SPACE || c == TAB) then
        st' == st.(pos := st.pos + 1, skipNewline := false)
      else
        st' == st.(pos := st.pos + 1, skipNewline := false, eatWhiteSpaceAtStart := false,
                   line := st.line + [c as char])
  }

  /** One turn of the copying loop: one `get`, a `peek`, and the branch on the character. */
  method CopyOne(data: seq<byte>, st: CopyState) returns (st': CopyState)
    requires st.pos <= |data| && !st.fail && !st.done
    ensures st.pos <= st'.pos <= |data|
    ensures st'.pos > st.pos || st'.fail
    ensures st'.fail ==> st'.pos == |data|
    ensures |st.line| <= |st'.line| <= |st.line| + 1 && st'.line[..|st.line|] == st.line
    ensures |st'.line| - |st.line| <= st'.pos - st.pos
    ensures |st'.line| > |st.line| ==> st'.line[|st.line|] != '\r' && st'.line[|st.line|] != '\n'
    ensures Turn(data, st, st')
  {
    st' := st;
    var c, pos, fail := Get(data, st.pos, st.fail);
    st' := st'.(pos := pos, fail := fail);
    var p := Peek(data, pos);
    if c == CR {
      if p == LF {
        var next;
        next, pos, fail := Get(data, pos, fail);
        st' := st'.(pos := pos, fail := fail);
        if st.skipNewline {
          st' := st'.(skipNewline := false, line := st.line + [' ']);
        } else {
          st' := st'.(done := true);
        }
      } else if st.skipNewline {
        st' := st'.(skipNewline := false, line := st.line + [' ']);
      } else {
        st' := st'.(done := true);
      }
    } else if c == LF {
      if st.skipNewline {
        st' := st'.(line := st.line + [' ']);
      } else {
        st' := st'.(done := true);
      }
    } else if c == BACKSLASH && (p == CR || p == LF) {
      st' := st'.(skipNewline := true);
    } else if c != EOF {
      st' := st'.(skipNewline := false);
      if !st.eatWhiteSpaceAtStart || (c != SPACE && c != TAB) {
        st' := st'.(eatWhiteSpaceAtStart := false, line := st.line + [c as char]);
      }
    }
  }

  /** Copying one more plain byte: the text so far gains it, and leading blanks are still
      dropped. */
  lemma CopyText(data: seq<byte>, pos: nat, cur: nat, isBinary: bool)
    requires pos <= cur < |data| && PlainByte(data[cur])
    ensures Chars(data[pos..cur + 1]) == Chars(data[pos..cur]) + [data[cur] as char]
    ensures var s, s' := Chars(data[pos..cur]), Chars(data[pos..cur + 1]);
      (LeadingBlanks(s) == |s| && data[cur] == SPACE ==> LeadingBlanks(s') == |s'| && DropLeadingBlanks(s') == []) &&
      (LeadingBlanks(s) == |s| && data[cur] != SPACE ==> LeadingBlanks(s') == |s| && DropLeadingBlanks(s') == [data[cur] as char]) &&
      (LeadingBlanks(s) < |s| ==> (LeadingBlanks(s') == LeadingBlanks(s) &&
         DropLeadingBlanks(s') == DropLeadingBlanks(s) + [data[cur] as char]))
  {
    var s, s' := Chars(data[pos..cur]), Chars(data[pos..cur + 1]);
    assert s' == s + [data[cur] as char];
    LeadingBlanksAppend(s, data[cur] as char);
  }

  lemma {:induction false} LeadingBlanksAppend(s: string, c: char)
    ensures LeadingBlanks(s) < |s| ==> LeadingBlanks(s + [c]) == LeadingBlanks(s)
    ensures LeadingBlanks(s) == |s| && IsBlank(c) ==> LeadingBlanks(s + [c]) == |s| + 1
    ensures LeadingBlanks(s) == |s| && !IsBlank(c) ==> LeadingBlanks(s + [c]) == |s|
    decreases |s|
  {
    if s != [] {
      LeadingBlanksAppend(s[1..], c);
      assert (s + [c])[1..] == s[1..] + [c];
    }
  }

  /** The trailing-space loop of `readline`: drops the spaces at the end of the buffer. */
  method StripTrailingSpaces(line: string) returns (line': string)
    ensures line' == line[..WithoutTrailingSpaces(line)]
    ensures |line'| <= |line|
  {
    var n := |line|;
    while n > 0 && line[n - 1] == ' '
      invariant 0 <= n <= |line|
      invariant WithoutTrailingSpaces(line) == WithoutTrailingSpaces(line[..n])
      decreases n
    {
      assert line[..n][..n - 1] == line[..n - 1];
      n := n - 1;
    }
    assert line[..n] == line[..n][..WithoutTrailingSpaces(line[..n])];
    line' := line[..n];
  }

  /** The tab loop of `readline`: every tab before the first NUL becomes a space; nothing
      else changes. */
  method TabsToSpaces(line: string) returns (line': string)
    ensures |line'| == |line|
    ensures forall i :: 0 <= i < |line| ==>
      line'[i] == (if i < |CutAtNul(line)| && line[i] == '\t' then ' ' else line[i])
    ensures forall i :: 0 <= i < |CutAtNul(line')| ==> CutAtNul(line')[i] != '\t'
  {
    line' := line;
    var i := 0;
    while i < |line'| && line'[i] != '\0'
      invariant 0 <= i <= |line| == |line'|
      invariant i <= |CutAtNul(line)|
      invariant forall j :: 0 <= j < |line| ==>
        line'[j] == (if j < i && line[j] == '\t' then ' ' else line[j])
    {
      if line'[i] == '\t' {
        line' := line'[i := ' '];
      }
      i := i + 1;
    }
    CutAtNulSame(line, line', i);
  }

  lemma {:induction false} CutAtNulSame(a: string, b: string, n: nat)
    requires |a| == |b| && n <= |a|
    requires n == |a| || b[n] == '\0'
    requires forall j :: 0 <= j < n ==> b[j] != '\0' && (a[j] == '\0' <==> b[j] == '\0')
    requires n < |a| ==> a[n] == '\0'
    ensures |CutAtNul(a)| == n && |CutAtNul(b)| == n
    decreases n
  {
    if n > 0 {
      CutAtNulSame(a[1..], b[1..], n - 1);
    }
  }
}
