/**
 * Lab 5: spelling words with the ICAO radio alphabet.  The alphabet is a
 * dictionary built from `letter-word` lines, each split at its first
 * dash, and `convert_ICAO` looks up every alphabetic character of the
 * case-folded word.
 */
module Icao {
  import opened Wrappers
  import opened Latin1

  /** The letters `a` to `z`, in the order of the lines of the alphabet text. */
  const Letters: string := SmallLetters()

  /** `a` to `z`, in order. */
  function SmallLetters(): (s: string)
    ensures |s| == 26
    ensures forall i :: 0 <= i < 26 ==> s[i] as int == 'a' as int + i
    ensures Distinct(s)
  {
    seq(26, i requires 0 <= i < 26 => (97 + i) as char)
  }

  /** What follows the dash on each line, as the source spells it. */
  const Words: seq<string> := [
    "alpha", "bravo", "charlie", "delta", "echo", "foxtrot", "golf", "hotel", "india",
    "juliett", "kilo", "lima", "mike", "november", "oscar", "papa", "quebe", "romeo",
    "sierra", "tango", "uniform", "victor", "whiskey", "x-ray", "yankee", "zulu"
  ]

  /** Each letter, a dash, and its word, one line per letter. */
  function LinesOf(letters: string, words: seq<string>): (lines: seq<string>)
    requires |letters| == |words|
    ensures |lines| == |letters|
    ensures forall i :: 0 <= i < |lines| ==> lines[i] == [letters[i]] + "-" + words[i]
  {
    seq(|letters|, i requires 0 <= i < |letters| => [letters[i]] + "-" + words[i])
  }

  /** The lines of the alphabet text: `a-alpha`, ..., `x-x-ray`, ..., `z-zulu`. */
  const Lines: seq<string> := LinesOf(Letters, Words)

  /** Where the first dash of `s` at or after `i` is, or `|s|` when there is none. */
  function DashAt(s: string, i: nat): (k: nat)
    requires i <= |s|
    ensures i <= k <= |s|
    ensures k < |s| ==> s[k] == '-'
    ensures forall j :: i <= j < k ==> s[j] != '-'
    decreases |s| - i
  {
    if i == |s| || s[i] == '-' then i else DashAt(s, i + 1)
  }

  /**
   * `line.split('-', 1)` turned into a key and a value by `dict`: a line
   * without a dash is one element, which `dict` rejects with ValueError.
   */
  function SplitLine(line: string): (r: Result<(string, string)>)
    ensures r.Err? <==> '-' !in line
    ensures r.Err? ==> r.error == ValueError
    ensures r.Ok? ==> line == r.value.0 + "-" + r.value.1 && '-' !in r.value.0
  {
    var k := DashAt(line, 0);
    if k == |line| then Err(ValueError)
    else
      assert line == line[..k] + "-" + line[k + 1..];
      Ok((line[..k], line[k + 1..]))
  }

  /** A line is split at its first dash, whatever follows: `x-x-ray` gives `x` and `x-ray`. */
  lemma {:induction false} SplitLineAtFirstDash(key: string, value: string)
    requires '-' !in key
    ensures SplitLine(key + "-" + value) == Ok((key, value))
  {
    var line := key + "-" + value;
    var k := DashAt(line, 0);
    assert line[|key|] == '-';
    assert k == |key|;
    assert line[..k] == key && line[k + 1..] == value;
  }

  /** `dict(pairs)`: later lines win; the first line without a dash is ValueError. */
  function DictOf(lines: seq<string>): (r: Result<map<string, string>>)
    ensures r.Err? <==> exists i :: 0 <= i < |lines| && '-' !in lines[i]
  {
    if lines == [] then Ok(map[])
    else
      var front := lines[..|lines| - 1];
      var last := lines[|lines| - 1];
      assert forall i :: 0 <= i < |front| ==> front[i] == lines[i];
      match DictOf(front)
      case Err(e) => Err(e)
      case Ok(m) =>
        match SplitLine(last)
        case Err(e) => Err(e)
        case Ok((k, v)) => Ok(m[k := v])
  }

  /** Single-character keys, one per line, each before a dash. */
  ghost predicate LetterLines(lines: seq<string>, letters: string, words: seq<string>) {
    && |lines| == |letters| == |words|
    && (forall i :: 0 <= i < |lines| ==> letters[i] != '-' && lines[i] == [letters[i]] + "-" + words[i])
  }

  /** Distinct characters. */
  ghost predicate Distinct(letters: string) {
    forall i, j :: 0 <= i < j < |letters| ==> letters[i] != letters[j]
  }

  /** `m` has exactly the one-character keys `letters`, each mapped to its word. */
  ghost predicate Spells(m: map<string, string>, letters: string, words: seq<string>)
    requires |letters| == |words|
  {
    && m.Keys == (set i | 0 <= i < |letters| :: [letters[i]])
    && (forall i :: 0 <= i < |letters| ==> m[[letters[i]]] == words[i])
  }

  /** Adding the last letter's entry to the map of the letters before it. */
  lemma SpellsStep(m: map<string, string>, letters: string, words: seq<string>)
    requires |letters| == |words| > 0 && Distinct(letters)
    requires Spells(m, letters[..|letters| - 1], words[..|words| - 1])
    ensures Spells(m[[letters[|letters| - 1]] := words[|words| - 1]], letters, words)
  {
    var n := |letters| - 1;
    var m' := m[[letters[n]] := words[n]];
    forall i | 0 <= i < n
      ensures m'[[letters[i]]] == words[i]
    {
      assert [letters[i]][0] != [letters[n]][0];
      assert letters[..n][i] == letters[i];
    }
    var before := set i | 0 <= i < n :: [letters[..n][i]];
    var after := set i | 0 <= i < |letters| :: [letters[i]];
    assert before == set i | 0 <= i < n :: [letters[i]];
    assert after == before + {[letters[n]]};
  }

  /** The dictionary of such lines maps each letter to the text after its dash on its line. */
  lemma {:induction false} DictOfLetterLines(lines: seq<string>, letters: string, words: seq<string>)
    requires LetterLines(lines, letters, words) && Distinct(letters)
    ensures DictOf(lines).Ok?
    ensures Spells(DictOf(lines).value, letters, words)
    decreases |lines|
  {
    if lines != [] {
      var n := |lines| - 1;
      var front, fl, fw := lines[..n], letters[..n], words[..n];
      DictOfLetterLines(front, fl, fw);
      SplitLineAtFirstDash([letters[n]], words[n]);
      var m := DictOf(front).value;
      assert DictOf(lines) == Ok(m[[letters[n]] := words[n]]);
      SpellsStep(m, letters, words);
    }
  }

  /** `ICAO_ALPHABET`. */
  const IcaoAlphabet: Result<map<string, string>> := DictOf(Lines)

  /**
   * The alphabet has exactly the 26 one-letter keys `a` to `z`, each
   * mapped to the text after the first dash of its line.
   */
  lemma IcaoAlphabetEntries()
    ensures IcaoAlphabet.Ok?
    ensures forall key :: key in IcaoAlphabet.value ==> |key| == 1
    ensures forall c: char :: [c] in IcaoAlphabet.value <==> 'a' <= c <= 'z'
    ensures forall c: char :: 'a' <= c <= 'z' ==> IcaoAlphabet.value[[c]] == Words[c as int - 'a' as int]
  {
    DictOfLetterLines(Lines, Letters, Words);
    LetterKeys(IcaoAlphabet.value, Words);
  }

  /** Reading the keys of a map that spells `a` to `z` letter by letter. */
  lemma LetterKeys(alphabet: map<string, string>, words: seq<string>)
    requires |words| == 26 && Spells(alphabet, Letters, words)
    ensures forall key :: key in alphabet ==> |key| == 1
    ensures forall c: char :: [c] in alphabet <==> 'a' <= c <= 'z'
    ensures forall c: char :: 'a' <= c <= 'z' ==> alphabet[[c]] == words[c as int - 'a' as int]
  {
    var letters := Letters;
    forall key | key in alphabet
      ensures exists i :: 0 <= i < 26 && key == [letters[i]]
    {
    }
    forall c: char | [c] in alphabet
      ensures 'a' <= c <= 'z'
    {
      var i :| 0 <= i < 26 && [c] == [letters[i]];
      assert c == letters[i];
    }
    forall c: char | 'a' <= c <= 'z'
      ensures [c] in alphabet && alphabet[[c]] == words[c as int - 'a' as int]
    {
      var i := c as int - 'a' as int;
      assert [c] == [letters[i]];
    }
  }

  /** `x` is spelled `x-ray` and `q` is spelled `quebe`, as the lines are written. */
  lemma IcaoAsWritten()
    ensures IcaoAlphabet.Ok? && "x" in IcaoAlphabet.value && "q" in IcaoAlphabet.value
    ensures IcaoAlphabet.value["x"] == "x-ray" && IcaoAlphabet.value["q"] == "quebe"
  {
    IcaoAlphabetEntries();
    assert "x" == ['x'] && "q" == ['q'];
  }

  /**
   * Draining `convert_ICAO(word)` over the folded word: the code word of
   * each alphabetic character in turn, non-alphabetic ones skipped;
   * KeyError at the first alphabetic character that has no code word.
   */
  function Spell(alphabet: map<string, string>, folded: string): (r: Result<seq<string>>)
    ensures r.Err? ==> r.error == KeyError
    ensures r.Err? <==> exists i :: 0 <= i < |folded| && IsAlpha(folded[i]) && [folded[i]] !in alphabet
  {
    if folded == [] then Ok([])
    else
      var c := folded[0];
      assert forall i :: 1 <= i < |folded| ==> folded[1..][i - 1] == folded[i];
      match Spell(alphabet, folded[1..])
      case Err(e) => if IsAlpha(c) && [c] !in alphabet then Err(KeyError) else Err(e)
      case Ok(rest) =>
        if !IsAlpha(c) then Ok(rest)
        else if [c] in alphabet then Ok([alphabet[[c]]] + rest)
        else Err(KeyError)
  }

  /** The alphabetic characters of `s`, in order. */
  function Alphas(s: string): (r: string)
    ensures |r| <= |s|
    ensures forall i :: 0 <= i < |r| ==> IsAlpha(r[i])
  {
    if s == [] then [] else (if IsAlpha(s[0]) then [s[0]] else []) + Alphas(s[1..])
  }

  /** Spelling yields one code word per alphabetic character, in order. */
  lemma {:induction false} SpellEach(alphabet: map<string, string>, folded: string)
    requires Spell(alphabet, folded).Ok?
    ensures |Spell(alphabet, folded).value| == |Alphas(folded)|
    ensures forall i :: 0 <= i < |Alphas(folded)| ==>
      [Alphas(folded)[i]] in alphabet && Spell(alphabet, folded).value[i] == alphabet[[Alphas(folded)[i]]]
  {
    if folded != [] {
      SpellEach(alphabet, folded[1..]);
    }
  }

  /** `convert_ICAO(word)`, drained. */
  function ConvertIcao(word: string): Result<seq<string>> {
    match IcaoAlphabet
    case Err(e) => Err(e)
    case Ok(alphabet) => Spell(alphabet, Casefold(word))
  }

  /** Spelling a word or its folded, lower-case form gives the same result. */
  lemma CaseDoesNotMatter(word: string)
    ensures ConvertIcao(Casefold(word)) == ConvertIcao(word)
  {
    CasefoldTwice(word);
  }

  /** A folded ASCII word has no capitals and keeps its count of letters. */
  lemma {:induction false} FoldAscii(word: string)
    requires forall i :: 0 <= i < |word| ==> word[i] < '\U{80}'
    ensures forall i :: 0 <= i < |Casefold(word)| ==>
      Casefold(word)[i] < '\U{80}' && !('A' <= Casefold(word)[i] <= 'Z')
    ensures |Alphas(Casefold(word))| == |Alphas(word)|
  {
    if word != [] {
      FoldAscii(word[1..]);
      var f := Fold(word[0]);
      assert |f| == 1;
      assert Casefold(word) == f + Casefold(word[1..]);
      assert Alphas(Casefold(word)) == Alphas(f) + Alphas(Casefold(word[1..])) by {
        AlphasConcat(f, Casefold(word[1..]));
      }
    }
  }

  /** The letters of two strings, one after the other. */
  lemma {:induction false} AlphasConcat(a: string, b: string)
    ensures Alphas(a + b) == Alphas(a) + Alphas(b)
  {
    if a == [] {
      assert a + b == b;
    } else {
      assert (a + b)[1..] == a[1..] + b;
      AlphasConcat(a[1..], b);
    }
  }

  /**
   * `convert_ICAO(word)` fails, with KeyError, exactly when the folded
   * word has a letter outside `a` to `z`.
   */
  lemma ConvertIcaoFails(word: string)
    ensures ConvertIcao(word).Err? <==>
      exists i :: 0 <= i < |Casefold(word)| && IsAlpha(Casefold(word)[i]) && !('a' <= Casefold(word)[i] <= 'z')
    ensures ConvertIcao(word).Err? ==> ConvertIcao(word).error == KeyError
  {
    IcaoAlphabetEntries();
  }

  /**
   * Otherwise it yields one code word per letter of the folded word, in
   * order: the word on the line of that letter.
   */
  lemma ConvertIcaoSpells(word: string)
    requires ConvertIcao(word).Ok?
    ensures |ConvertIcao(word).value| == |Alphas(Casefold(word))|
    ensures forall i :: 0 <= i < |ConvertIcao(word).value| ==>
      'a' <= Alphas(Casefold(word))[i] <= 'z' &&
      ConvertIcao(word).value[i] == Words[Alphas(Casefold(word))[i] as int - 'a' as int]
  {
    IcaoAlphabetEntries();
    var alphabet, folded := IcaoAlphabet.value, Casefold(word);
    assert ConvertIcao(word) == Spell(alphabet, folded);
    SpellEach(alphabet, folded);
  }

  /** An ASCII word always spells, with one code word per letter. */
  lemma AsciiSpells(word: string)
    requires forall i :: 0 <= i < |word| ==> word[i] < '\U{80}'
    ensures ConvertIcao(word).Ok?
    ensures |ConvertIcao(word).value| == |Alphas(word)|
  {
    FoldAscii(word);
    ConvertIcaoFails(word);
    ConvertIcaoSpells(word);
  }

  /** A letter with no code word, such as `é`, is KeyError. */
  lemma AccentIsKeyError()
    ensures ConvertIcao("Caf\U{c9}") == Err(KeyError)
  {
    var w := "Caf\U{c9}";
    assert Casefold(w) == "caf\U{e9}";
    assert exists i :: 0 <= i < |Casefold(w)| && IsAlpha(Casefold(w)[i]) && !('a' <= Casefold(w)[i] <= 'z') by {
      assert IsAlpha(Casefold(w)[3]);
    }
    ConvertIcaoFails(w);
  }
}
