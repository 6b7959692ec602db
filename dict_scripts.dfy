/**
 * The dictionary scripts of lab 4: word-by-word English to Swedish
 * translation through a small lexicon, and ROT-13 through
 * `str.translate` with a table from code points to code points.
 */
module DictScripts {
  import opened Wrappers

  /**
   * `BILINGUAL_LEXICON`.  The entry for `year` is the UTF-8 encoding of
   * `år` read back as Latin-1, as the source file spells it.
   */
  const Lexicon: map<string, string> := map[
    "merry" := "god",
    "christmas" := "jul",
    "and" := "och",
    "happy" := "gott",
    "new" := "nytt",
    "year" := "\U{c3}\U{a5}r"
  ]

  /** The upper-case half of `ROT_13_KEY`, code points to code points. */
  const UpperKey: map<int, int> := map[
    65 := 78, 66 := 79, 67 := 80, 68 := 81, 69 := 82, 70 := 83, 71 := 84, 72 := 85, 73 := 86,
    74 := 87, 75 := 88, 76 := 89, 77 := 90, 78 := 65, 79 := 66, 80 := 67, 81 := 68, 82 := 69,
    83 := 70, 84 := 71, 85 := 72, 86 := 73, 87 := 74, 88 := 75, 89 := 76, 90 := 77
  ]

  /** The lower-case half of `ROT_13_KEY`. */
  const LowerKey: map<int, int> := map[
    97 := 110, 98 := 111, 99 := 112, 100 := 113, 101 := 114, 102 := 115, 103 := 116, 104 := 117,
    105 := 118, 106 := 119, 107 := 120, 108 := 121, 109 := 122, 110 := 97, 111 := 98,
    112 := 99, 113 := 100, 114 := 101, 115 := 102, 116 := 103, 117 := 104, 118 := 105,
    119 := 106, 120 := 107, 121 := 108, 122 := 109
  ]

  /** `ROT_13_KEY`: the two halves in one table. */
  const Rot13Key: map<int, int> := UpperKey + LowerKey

  predicate IsUpper(c: char) { 'A' <= c <= 'Z' }
  predicate IsLower(c: char) { 'a' <= c <= 'z' }

  /** The letter 13 places on in its own alphabet, wrapping from `z` to `a`. */
  function Rotated(c: char): (d: char)
    requires IsUpper(c) || IsLower(c)
  {
    var base := if IsUpper(c) then 'A' as int else 'a' as int;
    if c as int - base < 13 then (c as int + 13) as char else (c as int - 13) as char
  }

  /** The code of a letter 13 places on in its own alphabet, wrapping from `z` to `a`. */
  function RotatedCode(n: int): int {
    if 65 <= n <= 77 || 97 <= n <= 109 then n + 13 else n - 13
  }

  lemma UpperKeyLetters(n: int)
    ensures n in UpperKey <==> 65 <= n <= 90
  {
  }

  lemma UpperKeyCodes(n: int)
    requires n in UpperKey
    ensures UpperKey[n] == RotatedCode(n)
  {
  }

  lemma LowerKeyLetters(n: int)
    ensures n in LowerKey <==> 97 <= n <= 122
  {
  }

  lemma LowerKeyCodes(n: int)
    requires n in LowerKey
    ensures LowerKey[n] == RotatedCode(n)
  {
  }

  /**
   * The table holds exactly the 52 ASCII letters, and sends each to the
   * letter 13 places on in its own alphabet.
   */
  lemma Rot13KeyIsRotation(n: int)
    ensures n in Rot13Key <==> (65 <= n <= 90 || 97 <= n <= 122)
    ensures n in Rot13Key ==> Rot13Key[n] == RotatedCode(n) == Rotated(n as char) as int
  {
    UpperKeyLetters(n);
    LowerKeyLetters(n);
    if n in UpperKey {
      UpperKeyCodes(n);
    } else if n in LowerKey {
      LowerKeyCodes(n);
    }
  }

  /** `str.translate` with `ROT_13_KEY` on one character. */
  function Rot13Char(c: char): (d: char)
    ensures IsUpper(c) || IsLower(c) ==> d == Rotated(c)
    ensures !(IsUpper(c) || IsLower(c)) ==> d == c
  {
    Rot13KeyIsRotation(c as int);
    if c as int in Rot13Key then Rot13Key[c as int] as char else c
  }

  /** `run_rot_13(message)`: `message.translate(ROT_13_KEY)`. */
  function RunRot13(message: string): (r: string)
    ensures |r| == |message|
    ensures forall i :: 0 <= i < |message| ==> r[i] == Rot13Char(message[i])
  {
    seq(|message|, i requires 0 <= i < |message| => Rot13Char(message[i]))
  }

  /**
   * ROT-13 keeps the case of every letter and leaves everything but the
   * ASCII letters alone.
   */
  lemma Rot13KeepsCase(message: string, i: int)
    requires 0 <= i < |message|
    ensures IsUpper(message[i]) <==> IsUpper(RunRot13(message)[i])
    ensures IsLower(message[i]) <==> IsLower(RunRot13(message)[i])
    ensures !IsUpper(message[i]) && !IsLower(message[i]) ==> RunRot13(message)[i] == message[i]
  {
  }

  /** Rotation keeps a letter in its own alphabet and, done twice, gives it back. */
  lemma RotatedTwice(c: char)
    requires IsUpper(c) || IsLower(c)
    ensures IsUpper(Rotated(c)) <==> IsUpper(c)
    ensures IsLower(Rotated(c)) <==> IsLower(c)
    ensures Rotated(Rotated(c)) == c
  {
  }

  /** Rotating a character twice gives it back. */
  lemma Rot13CharTwice(c: char)
    ensures Rot13Char(Rot13Char(c)) == c
  {
    if IsUpper(c) || IsLower(c) {
      RotatedTwice(c);
    }
  }

  /** ROT-13 is its own inverse: encoding and decoding are the same call. */
  lemma Rot13Involution(message: string)
    ensures RunRot13(RunRot13(message)) == message
  {
    forall i | 0 <= i < |message|
      ensures RunRot13(RunRot13(message))[i] == message[i]
    {
      Rot13CharTwice(message[i]);
    }
  }

  /** `BILINGUAL_LEXICON.get(word, word)`. */
  function Lookup(word: string): string {
    if word in Lexicon then Lexicon[word] else word
  }

  /** The words the `translate` generator yields, one per input word, in order. */
  function TranslateWords(words: seq<string>): (out: seq<string>)
    ensures |out| == |words|
    ensures forall i :: 0 <= i < |words| ==> out[i] == Lookup(words[i])
  {
    if words == [] then [] else [Lookup(words[0])] + TranslateWords(words[1..])
  }

  /**
   * Draining `translate(words)`: the translated words, or, on no words at
   * all, UnboundLocalError from `return word` after a loop that never
   * bound `word`.
   */
  function Translate(words: seq<string>): (r: Result<seq<string>>)
    ensures r.Err? <==> words == []
    ensures r.Err? ==> r.error == UnboundLocalError
    ensures r.Ok? ==> r.value == TranslateWords(words)
  {
    if words == [] then Err(UnboundLocalError) else Ok(TranslateWords(words))
  }

  /** Translation works word by word: translating two runs of words translates each. */
  lemma {:induction false} TranslateConcat(a: seq<string>, b: seq<string>)
    ensures TranslateWords(a + b) == TranslateWords(a) + TranslateWords(b)
  {
    if a == [] {
      assert a + b == b;
    } else {
      assert (a + b)[1..] == a[1..] + b;
      TranslateConcat(a[1..], b);
    }
  }

  /** Words that are not keys, including keys spelled in another case, pass through. */
  lemma TranslateUnknown(words: seq<string>)
    requires forall i :: 0 <= i < |words| ==> words[i] !in Lexicon
    ensures TranslateWords(words) == words
  {
  }

  /** Lookup is exact: a key spelled with a capital is not translated. */
  lemma TranslateIsExact()
    ensures Translate(["Merry", "merry", "christmas!"]) == Ok(["Merry", "god", "christmas!"])
  {
    assert "Merry"[0] != "merry"[0] && |"christmas!"| != |"christmas"|;
    assert "Merry" !in Lexicon && "christmas!" !in Lexicon;
    var out := TranslateWords(["Merry", "merry", "christmas!"]);
    assert out[0] == "Merry" && out[1] == "god" && out[2] == "christmas!";
    assert out == ["Merry", "god", "christmas!"];
  }
}
