/** `ReaderWriterHulk::parseOptions`: the plug-in's option string is a list of
    white-space separated words `key=value`; `mode` and `bits` are understood. */
module HulkOptions {
  import opened Common

  /** `ReaderWriterHulk::OptionsStruct`. */
  datatype Options = Options(mode: U32, bits: Int32)

  const DEFAULT_OPTIONS := Options(0, -1)

  /** The characters `istream >> std::string` skips between words. */
  const WHITE_SPACE: seq<char> := [' ', '\t', '\n', '\r', 11 as char, 12 as char]

  /** A word cut at its first `=`: the key before it and the value after it; a word
      without `=` is all key and has an empty value. */
  function Split(word: string): (r: (string, string))
    ensures '=' !in r.0
    ensures '=' in word ==> word == r.0 + "=" + r.1
    ensures '=' !in word ==> r == (word, "")
    decreases |word|
  {
    if word == [] then ([], [])
    else if word[0] == '=' then ([], word[1..])
    else
      var rest := Split(word[1..]);
      assert word == [word[0]] + word[1..];
      ([word[0]] + rest.0, rest.1)
  }

  /** Whether `word` assigns a non-empty value to `key`. */
  predicate Sets(word: string, key: string)
  {
    Split(word).0 == key && Split(word).1 != []
  }

  /** The effect of one word on the options. */
  function Applied(o: Options, word: string): Options
  {
    var (key, value) := Split(word);
    if value == [] then o
    else if key == "mode" then o.(mode := ToU32(Atoi(value)))
    else if key == "bits" then o.(bits := Wrap32(Atoi(value)))
    else o
  }

  /** The options after the words, taken in order. */
  function ParsedFrom(o: Options, words: seq<string>): Options
    decreases |words|
  {
    if words == [] then o
    else Applied(ParsedFrom(o, words[..|words| - 1]), words[|words| - 1])
  }

  /** The two understood keys, and the field each one sets. */
  predicate Known(key: string) { key == "mode" || key == "bits" }

  function Field(o: Options, key: string): int
    requires Known(key)
  {
    if key == "mode" then o.mode else o.bits
  }

  /** What `atoi` followed by the store into the field makes of `value`. */
  function Converted(key: string, value: string): int
    requires Known(key)
  {
    if key == "mode" then ToU32(Atoi(value)) else Wrap32(Atoi(value))
  }

  /** `parseOptions`: without options, the defaults; otherwise every word in turn. */
  method ParseOptions(options: Option<string>) returns (r: Options)
    ensures options.None? ==> r == DEFAULT_OPTIONS
    ensures options.Some? ==> r == ParsedFrom(DEFAULT_OPTIONS, Tokens(options.value, WHITE_SPACE))
  {
    r := DEFAULT_OPTIONS;
    if options.Some? {
      var words := Tokens(options.value, WHITE_SPACE);
      for i := 0 to |words|
        invariant r == ParsedFrom(DEFAULT_OPTIONS, words[..i])
      {
        var (pre, post) := Split(words[i]);
        if post != [] {
          if pre == "mode" {
            r := r.(mode := ToU32(Atoi(post)));
          } else if pre == "bits" {
            r := r.(bits := Wrap32(Atoi(post)));
          }
        }
        assert words[..i + 1][..i] == words[..i];
      }
      assert words[..|words|] == words;
    }
  }

  /** A word changes at most the field its key names, and only with a non-empty value. */
  lemma AppliedChanges(o: Options, word: string, key: string)
    requires Known(key)
    ensures Sets(word, key) ==> Field(Applied(o, word), key) == Converted(key, Split(word).1)
    ensures !Sets(word, key) ==> Field(Applied(o, word), key) == Field(o, key)
    ensures !Sets(word, "mode") && !Sets(word, "bits") ==> Applied(o, word) == o
  {
  }

  /** A field no word sets keeps its value. */
  lemma {:induction false} Untouched(o: Options, words: seq<string>, key: string)
    requires Known(key)
    requires forall j :: 0 <= j < |words| ==> !Sets(words[j], key)
    ensures Field(ParsedFrom(o, words), key) == Field(o, key)
    decreases |words|
  {
    if words != [] {
      var init := words[..|words| - 1];
      Untouched(o, init, key);
      AppliedChanges(ParsedFrom(o, init), words[|words| - 1], key);
    }
  }

  /** The last word that sets a field decides it; earlier ones are overridden. */
  lemma {:induction false} LastWins(o: Options, words: seq<string>, key: string, i: nat)
    requires Known(key)
    requires i < |words| && Sets(words[i], key)
    requires forall j :: i < j < |words| ==> !Sets(words[j], key)
    ensures Field(ParsedFrom(o, words), key) == Converted(key, Split(words[i]).1)
    decreases |words|
  {
    var init := words[..|words| - 1];
    var last := words[|words| - 1];
    if i == |words| - 1 {
      AppliedChanges(ParsedFrom(o, init), last, key);
    } else {
      LastWins(o, init, key, i);
      AppliedChanges(ParsedFrom(o, init), last, key);
    }
  }

  /** Words that set neither key leave all options as they were. */
  lemma {:induction false} OthersIgnored(o: Options, words: seq<string>)
    requires forall j :: 0 <= j < |words| ==> !Sets(words[j], "mode") && !Sets(words[j], "bits")
    ensures ParsedFrom(o, words) == o
    decreases |words|
  {
    if words != [] {
      OthersIgnored(o, words[..|words| - 1]);
      AppliedChanges(o, words[|words| - 1], "mode");
    }
  }

  /** `Split` cuts at the first `=`, whatever follows it. */
  lemma {:induction false} SplitAtFirst(word: string, k: nat)
    requires k < |word| && word[k] == '='
    requires forall j :: 0 <= j < k ==> word[j] != '='
    ensures Split(word) == (word[..k], word[k + 1..])
    decreases k
  {
    if k > 0 {
      SplitAtFirst(word[1..], k - 1);
      assert word[..k] == [word[0]] + word[1..][..k - 1];
      assert word[1..][k..] == word[k + 1..];
    }
  }

  /** The value runs to the end of the word, `=` signs included: `mode=3=4` gives
      `mode` the value `3=4`. */
  lemma SplitExample()
    ensures Split("mode=3=4") == ("mode", "3=4")
  {
    var w := "mode=3=4";
    SplitAtFirst(w, 4);
    assert w[..4] == "mode";
    assert w[5..] == "3=4";
  }
}
