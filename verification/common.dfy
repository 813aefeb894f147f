/** Shared value types: optional results, bytes, fixed-width machine integers
    and the decimal conversions the plug-ins rely on. */
module Common {

  datatype Option<T> = None | Some(value: T)

  /** One octet of a stream. */
  type byte = b: int | 0 <= b < 0x100

  /** An `unsigned int` (32 bits). */
  type U32 = x: int | 0 <= x < 0x1_0000_0000

  /** A `size_t` (64 bits). */
  type SizeT = x: int | 0 <= x < 0x1_0000_0000_0000_0000

  const INT32_LIMIT: int := 0x8000_0000

  /** `(size_t)-1`, used as "none" sentinel by the OFF model. */
  const SIZE_T_MAX: SizeT := 0xFFFF_FFFF_FFFF_FFFF

  /** Reinterprets an `unsigned int` as a two's-complement `int`. */
  function AsInt32(w: U32): (r: int)
    ensures -INT32_LIMIT <= r < INT32_LIMIT
    ensures r % 0x1_0000_0000 == w
  {
    if w < INT32_LIMIT then w else w - 0x1_0000_0000
  }

  /** Conversion of a (possibly negative) `int` to `size_t`: negative values wrap around. */
  function ToSizeT(i: int): (r: SizeT)
    requires -INT32_LIMIT <= i
    ensures 0 <= i < 0x1_0000_0000_0000_0000 ==> r == i
    ensures i < 0 ==> r >= 0x1_0000_0000_0000_0000 - INT32_LIMIT
  {
    if i < 0 then i + 0x1_0000_0000_0000_0000
    else if i < 0x1_0000_0000_0000_0000 then i
    else i % 0x1_0000_0000_0000_0000
  }

  /** Truncation to 32 bits, as done by an assignment of a wider integer to `unsigned int`. */
  function ToU32(i: int): (r: U32)
    ensures 0 <= i < 0x1_0000_0000 ==> r == i
  {
    i % 0x1_0000_0000
  }

  predicate IsDigit(c: char) { '0' <= c <= '9' }

  predicate IsSpace(c: char)
  {
    c == ' ' || c == '\t' || c == '\n' || c == '\r' || c == 11 as char || c == 12 as char
  }

  /** The decimal representation of a natural number, as `operator<<` prints it. */
  function NatToDecimal(n: nat): (s: string)
    ensures |s| > 0
    ensures forall k :: 0 <= k < |s| ==> IsDigit(s[k])
    decreases n
  {
    if n < 10 then [Digit(n)] else NatToDecimal(n / 10) + [Digit(n % 10)]
  }

  function Digit(d: nat): (c: char)
    requires d < 10
    ensures IsDigit(c)
  {
    (d + '0' as int) as char
  }

  /** The value of a string of decimal digits. */
  function DecimalValue(s: string): nat
    requires forall k :: 0 <= k < |s| ==> IsDigit(s[k])
    decreases |s|
  {
    if s == [] then 0 else DecimalValue(s[..|s| - 1]) * 10 + DigitValue(s[|s| - 1])
  }

  function DigitValue(c: char): (d: nat)
    requires IsDigit(c)
    ensures d < 10
  {
    c as int - '0' as int
  }

  lemma {:induction false} DecimalRoundTrip(n: nat)
    ensures DecimalValue(NatToDecimal(n)) == n
    decreases n
  {
    if n >= 10 {
      DecimalRoundTrip(n / 10);
      var s := NatToDecimal(n);
      assert s[..|s| - 1] == NatToDecimal(n / 10);
    }
  }

  /** Number of leading digits of `s`. */
  function DigitRun(s: string): (k: nat)
    ensures k <= |s|
    ensures forall i :: 0 <= i < k ==> IsDigit(s[i])
    ensures k < |s| ==> !IsDigit(s[k])
    decreases |s|
  {
    if s != [] && IsDigit(s[0]) then 1 + DigitRun(s[1..]) else 0
  }

  /** `strtol`-style reading of a base-10 integer at the start of `s`, after leading
      white space: the value and the number of characters used, or None when no digit follows
      the optional sign. This is what `%d` in `sscanf` and `atoi` read. */
  function ScanDecimal(s: string): (r: Option<(int, nat)>)
    ensures r.Some? ==> 0 < r.value.1 <= |s|
    decreases |s|
  {
    if s != [] && IsSpace(s[0]) then
      match ScanDecimal(s[1..])
      case None => None
      case Some(p) => Some((p.0, p.1 + 1))
    else
      var sign := if s != [] && (s[0] == '+' || s[0] == '-') then 1 else 0;
      var k := DigitRun(s[sign..]);
      if k == 0 then None
      else
        var v: int := DecimalValue(s[sign..sign + k]);
        var value: int := if sign == 1 && s[0] == '-' then -v else v;
        Some((value, sign + k))
  }

  /** `atoi`: the leading integer of the string, 0 when there is none. */
  function Atoi(s: string): int
  {
    match ScanDecimal(s)
    case None => 0
    case Some(p) => p.0
  }

  lemma AtoiOfDecimal(n: nat)
    ensures Atoi(NatToDecimal(n)) == n
  {
    var s := NatToDecimal(n);
    assert s[0..] == s;
    assert !IsSpace(s[0]) && s[0] != '+' && s[0] != '-';
    DigitRunAll(s);
    assert s[0..|s|] == s;
    DecimalRoundTrip(n);
  }

  lemma {:induction false} DigitRunAll(s: string)
    requires forall k :: 0 <= k < |s| ==> IsDigit(s[k])
    ensures DigitRun(s) == |s|
    decreases |s|
  {
    if s != [] {
      DigitRunAll(s[1..]);
    }
  }

  /** An `int` (32 bits). */
  type Int32 = x: int | -INT32_LIMIT <= x < INT32_LIMIT

  /** The low 32 bits of `v` read as a two's-complement `int`: what storing a wider value
      into an `int` leaves. */
  function Wrap32(v: int): (r: Int32)
    ensures -INT32_LIMIT <= v < INT32_LIMIT ==> r == v
  {
    AsInt32(ToU32(v))
  }

  /** The `%d` conversion of `sscanf` at the start of `s`: the value stored and the number of
      characters used, or None when the conversion fails. */
  function ScanInt(s: string): (r: Option<(Int32, nat)>)
    ensures r.Some? ==> 0 < r.value.1 <= |s|
    ensures r.None? <==> ScanDecimal(s).None?
  {
    match ScanDecimal(s)
    case None => None
    case Some(p) => Some((Wrap32(p.0), p.1))
  }

  // ---------------------------------------------------------------- tokens

  /** Length of the leading run of `s` free of separators. */
  function RunLength(s: string, seps: seq<char>): (k: nat)
    ensures k <= |s|
    ensures forall i :: 0 <= i < k ==> s[i] !in seps
    ensures k < |s| ==> s[k] in seps
    decreases |s|
  {
    if s != [] && s[0] !in seps then 1 + RunLength(s[1..], seps) else 0
  }

  /** The maximal non-empty runs of `text` that hold no separator, in order: what
      `explodeString`, `osgDB::split` and repeated `istream >> std::string` produce. */
  function Tokens(text: string, seps: seq<char>): seq<string>
    decreases |text|
  {
    if text == [] then []
    else if text[0] in seps then Tokens(text[1..], seps)
    else
      var k := RunLength(text, seps);
      [text[..k]] + Tokens(text[k..], seps)
  }

  /** `text` with every separator removed. */
  function Without(text: string, seps: seq<char>): (r: string)
    ensures forall c :: c in r ==> c in text && c !in seps
    decreases |text|
  {
    if text == [] then []
    else if text[0] in seps then Without(text[1..], seps)
    else [text[0]] + Without(text[1..], seps)
  }

  function Concat(ts: seq<string>): string
    decreases |ts|
  {
    if ts == [] then [] else ts[0] + Concat(ts[1..])
  }

  /** Every token is non-empty and free of separators. */
  lemma {:induction false} TokensShape(text: string, seps: seq<char>)
    ensures forall t :: t in Tokens(text, seps) ==> t != [] && forall c :: c in t ==> c !in seps
    decreases |text|
  {
    if text != [] {
      if text[0] in seps {
        TokensShape(text[1..], seps);
      } else {
        var k := RunLength(text, seps);
        TokensShape(text[k..], seps);
        assert Tokens(text, seps) == [text[..k]] + Tokens(text[k..], seps);
      }
    }
  }

  /** The tokens, put back together, are the text without its separators. */
  lemma {:induction false} TokensConcat(text: string, seps: seq<char>)
    ensures Concat(Tokens(text, seps)) == Without(text, seps)
    decreases |text|
  {
    if text != [] && text[0] !in seps {
      var k := RunLength(text, seps);
      TokensConcat(text[k..], seps);
      var ts := Tokens(text[k..], seps);
      assert ([text[..k]] + ts)[1..] == ts;
      WithoutRun(text, k, seps);
    } else if text != [] {
      TokensConcat(text[1..], seps);
    }
  }

  lemma {:induction false} WithoutRun(text: string, k: nat, seps: seq<char>)
    requires k <= |text| && forall i :: 0 <= i < k ==> text[i] !in seps
    ensures Without(text, seps) == text[..k] + Without(text[k..], seps)
    decreases k
  {
    if k > 0 {
      var w := Without(text[k..], seps);
      WithoutRun(text[1..], k - 1, seps);
      assert text[1..][k - 1..] == text[k..];
      assert text[..k] == [text[0]] + text[1..][..k - 1];
      AppendAssoc([text[0]], text[1..][..k - 1], w);
    }
  }

  lemma AppendAssoc<T>(a: seq<T>, b: seq<T>, c: seq<T>)
    ensures a + b + c == a + (b + c)
  {
  }

  /** Splitting at the first separator: the run before it (when non-empty) is the first
      token, and the rest of the tokens are those after it. */
  lemma TokensAtSeparator(text: string, p: nat, seps: seq<char>)
    requires p < |text| && text[p] in seps
    requires forall i :: 0 <= i < p ==> text[i] !in seps
    ensures Tokens(text, seps) == (if p > 0 then [text[..p]] else []) + Tokens(text[p + 1..], seps)
  {
    if p > 0 {
      assert RunLength(text, seps) == p by { RunLengthIs(text, p, seps); }
      assert text[p..][1..] == text[p + 1..];
    }
  }

  /** Without a separator the whole text is one token (or none when empty). */
  lemma TokensNoSeparator(text: string, seps: seq<char>)
    requires forall i :: 0 <= i < |text| ==> text[i] !in seps
    ensures Tokens(text, seps) == (if text != [] then [text] else [])
  {
    if text != [] {
      RunLengthIs(text, |text|, seps);
      assert text[..|text|] == text;
      assert text[|text|..] == [];
    }
  }

  /** The words of `ws` written one after the other with `sep` between them. */
  function Join(ws: seq<string>, sep: char): (s: string)
    decreases |ws|
  {
    if ws == [] then [] else if |ws| == 1 then ws[0] else ws[0] + [sep] + Join(ws[1..], sep)
  }

  /** Splitting a text written by `Join` at its separator gives the words back, provided
      they are non-empty and hold no separator. */
  lemma {:induction false} TokensJoin(ws: seq<string>, sep: char)
    requires forall i :: 0 <= i < |ws| ==> ws[i] != [] && sep !in ws[i]
    ensures Tokens(Join(ws, sep), [sep]) == ws
    decreases |ws|
  {
    if |ws| == 1 {
      TokensNoSeparator(ws[0], [sep]);
    } else if |ws| > 1 {
      var text := Join(ws, sep);
      var w := ws[0];
      assert text == w + ([sep] + Join(ws[1..], sep)) by {
        AppendAssoc(w, [sep], Join(ws[1..], sep));
      }
      assert text[..|w|] == w;
      assert text[|w| + 1..] == Join(ws[1..], sep);
      TokensAtSeparator(text, |w|, [sep]);
      TokensJoin(ws[1..], sep);
    }
  }

  /** One more word written after the others. */
  lemma {:induction false} JoinSnoc(ws: seq<string>, w: string, sep: char)
    requires ws != []
    ensures Join(ws + [w], sep) == Join(ws, sep) + [sep] + w
    decreases |ws|
  {
    if |ws| > 1 {
      assert (ws + [w])[1..] == ws[1..] + [w];
      JoinSnoc(ws[1..], w, sep);
      AppendAssoc(ws[0] + [sep], Join(ws[1..], sep) + [sep], w);
      AppendAssoc(ws[0] + [sep], Join(ws[1..], sep), [sep]);
    } else {
      assert ws + [w] == [ws[0], w];
      assert [ws[0], w][1..] == [w];
    }
  }

  lemma {:induction false} RunLengthIs(text: string, p: nat, seps: seq<char>)
    requires p <= |text| && (p < |text| ==> text[p] in seps)
    requires forall i :: 0 <= i < p ==> text[i] !in seps
    ensures RunLength(text, seps) == p
    decreases p
  {
    if p > 0 {
      RunLengthIs(text[1..], p - 1, seps);
    }
  }
}
