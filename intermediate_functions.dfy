/**
 * The intermediate functions of lab 3: repeating a character, the largest
 * number of a list, the longest word, filtering long words, pangrams, the
 * bottles song and character frequencies.
 */
module IntermediateFunctions {
  import opened Wrappers
  import Text
  import opened Counting

  /**
   * `generate_n_chars(character, number)`: ValueError unless `character`
   * is one character long; otherwise it repeated `number` times, which is
   * nothing when `number` is not positive.
   */
  method GenerateNChars(character: string, number: int) returns (r: Result<string>)
    ensures r.Err? <==> |character| != 1
    ensures r.Err? ==> r.error == ValueError
    ensures r.Ok? ==> |r.value| == (if number > 0 then number else 0)
    ensures r.Ok? ==> forall i :: 0 <= i < |r.value| ==> r.value[i] == character[0]
  {
    if |character| != 1 {
      return Err(ValueError);
    }
    var answer := "";
    var count := if number > 0 then number else 0;
    for k := 0 to count
      invariant |answer| == k
      invariant forall i :: 0 <= i < k ==> answer[i] == character[0]
    {
      answer := answer + character;
    }
    return Ok(answer);
  }

  /** The largest element of a non-empty list. */
  function Largest(s: seq<int>): (m: int)
    requires |s| > 0
    ensures m in s
    ensures forall x :: x in s ==> x <= m
  {
    if |s| == 1 then s[0]
    else
      var front := s[..|s| - 1];
      assert s == front + [s[|s| - 1]];
      var m := Largest(front);
      if s[|s| - 1] > m then s[|s| - 1] else m
  }

  /**
   * `max_in_list(list_of_numbers)`: ValueError for an empty list,
   * otherwise an element no other element exceeds.
   */
  method MaxInList(listOfNumbers: seq<int>) returns (r: Result<int>)
    ensures r.Err? <==> |listOfNumbers| == 0
    ensures r.Err? ==> r.error == ValueError
    ensures r.Ok? ==> r.value in listOfNumbers && forall x :: x in listOfNumbers ==> x <= r.value
  {
    if |listOfNumbers| < 1 {
      return Err(ValueError);
    }
    var largest := listOfNumbers[0];
    for i := 0 to |listOfNumbers|
      invariant largest in listOfNumbers
      invariant forall j :: 0 <= j < i ==> listOfNumbers[j] <= largest
    {
      if listOfNumbers[i] > largest {
        largest := listOfNumbers[i];
      }
    }
    return Ok(largest);
  }

  /**
   * `find_longest_word(list_of_words)`: the length of a longest word;
   * ValueError from `max_in_list` when there are no words.
   */
  function FindLongestWord(listOfWords: seq<string>): (r: Result<int>)
    ensures r.Err? <==> |listOfWords| == 0
    ensures r.Err? ==> r.error == ValueError
    ensures r.Ok? ==> exists w :: w in listOfWords && r.value == |w|
    ensures r.Ok? ==> forall w :: w in listOfWords ==> |w| <= r.value
  {
    if |listOfWords| == 0 then Err(ValueError)
    else
      var lengths := seq(|listOfWords|, i requires 0 <= i < |listOfWords| => |listOfWords[i]|);
      var m := Largest(lengths);
      assert forall w :: w in listOfWords ==> |w| in lengths by {
        forall w | w in listOfWords
          ensures |w| in lengths
        {
          var i :| 0 <= i < |listOfWords| && listOfWords[i] == w;
          assert lengths[i] == |w|;
        }
      }
      var i :| 0 <= i < |lengths| && lengths[i] == m;
      assert listOfWords[i] in listOfWords;
      Ok(m)
  }

  /** The words longer than `number`, in their order. */
  function LongWords(words: seq<string>, number: int): seq<string> {
    if words == [] then []
    else
      var w := words[|words| - 1];
      LongWords(words[..|words| - 1], number) + (if |w| > number then [w] else [])
  }

  /** The filter keeps exactly the long words. */
  lemma {:induction false} LongWordsExact(words: seq<string>, number: int)
    ensures forall w :: w in LongWords(words, number) <==> w in words && |w| > number
  {
    if words != [] {
      var front := words[..|words| - 1];
      assert words == front + [words[|words| - 1]];
      LongWordsExact(front, number);
    }
  }

  /** Filtering a concatenation filters each part, keeping their order. */
  lemma {:induction false} LongWordsConcat(a: seq<string>, b: seq<string>, number: int)
    ensures LongWords(a + b, number) == LongWords(a, number) + LongWords(b, number)
    decreases |b|
  {
    if b == [] {
      assert a + b == a;
    } else {
      var n := |b| - 1;
      assert (a + b)[..|a + b| - 1] == a + b[..n];
      LongWordsConcat(a, b[..n], number);
    }
  }

  /** Filtering twice is filtering once. */
  lemma {:induction false} LongWordsTwice(words: seq<string>, number: int)
    ensures LongWords(LongWords(words, number), number) == LongWords(words, number)
  {
    if words != [] {
      var front, w := words[..|words| - 1], words[|words| - 1];
      var kept := if |w| > number then [w] else [];
      LongWordsTwice(front, number);
      LongWordsConcat(LongWords(front, number), kept, number);
      assert LongWords(kept, number) == kept by {
        if kept != [] {
          assert kept[..0] == [];
        }
      }
    }
  }

  /** `filter_long_words(list_of_words, number)`. */
  method FilterLongWords(listOfWords: seq<string>, number: int) returns (sentence: seq<string>)
    ensures sentence == LongWords(listOfWords, number)
  {
    sentence := [];
    for counter := 0 to |listOfWords|
      invariant sentence == LongWords(listOfWords[..counter], number)
    {
      assert listOfWords[..counter + 1][..counter] == listOfWords[..counter];
      if |listOfWords[counter]| > number {
        sentence := sentence + [listOfWords[counter]];
      }
    }
    assert listOfWords[..|listOfWords|] == listOfWords;
  }

  /** The capital of a small ASCII letter. */
  function Capital(c: char): char
    requires 'a' <= c <= 'z'
  {
    (c as int - 32) as char
  }

  /**
   * `is_pangram(sentence)`: every small ASCII letter is in
   * `sentence.lower()`, that is, every letter occurs in one case or the
   * other.
   */
  function IsPangram(sentence: string): (b: bool)
    ensures b <==> forall c: char :: 'a' <= c <= 'z' ==> c in sentence || Capital(c) in sentence
  {
    var lowered := set i | 0 <= i < |sentence| :: Text.Lower(sentence[i]);
    forall c: char | 'a' <= c <= 'z'
      ensures c in lowered <==> c in sentence || Capital(c) in sentence
    {
      if c in sentence {
        var i :| 0 <= i < |sentence| && sentence[i] == c;
        assert Text.Lower(sentence[i]) == c;
      } else if Capital(c) in sentence {
        var i :| 0 <= i < |sentence| && sentence[i] == Capital(c);
        assert Text.Lower(sentence[i]) == c;
      }
    }
    forall c: char :: 'a' <= c <= 'z' ==> c in lowered
  }

  /** The sentence of `main` is a pangram. */
  lemma QuickBrownFox()
    ensures IsPangram("The quick brown fox jumps over the lazy dog.")
  {
    var s := "The quick brown fox jumps over the lazy dog.";
    forall c: char | 'a' <= c <= 'z'
      ensures c in s
    {
    }
  }

  /** `range(n, 0, -1)`: `n` down to 1. */
  function Countdown(n: nat): (s: seq<int>)
    ensures |s| == n
    ensures forall i :: 0 <= i < n ==> s[i] == n - i
  {
    if n == 0 then [] else [n] + Countdown(n - 1)
  }

  /** `bottle`, with an `s` unless the count is one. */
  function Bottles(count: int): string {
    Text.IntToString(count) + " bottle" + (if count != 1 then "s" else "")
  }

  /** The first line of the verse for `count`. */
  function FirstLine(count: int, beverage: string): string {
    Bottles(count) + " of " + beverage + " on the wall, " + Bottles(count) + " of " + beverage + "."
  }

  const TakeOneDown: string := "Take one down, pass it around, "

  /** The second line of the verse for `count`, as written: plural only above one. */
  function SecondLine(count: int): string {
    TakeOneDown + Text.IntToString(count - 1) + " bottle" + (if count - 1 > 1 then "s" else "")
  }

  /** Two lines for each count in turn: `first(count)`, then `second(count)`. */
  function Verses(counts: seq<int>, first: int -> string, second: int -> string): (lines: seq<string>)
    ensures |lines| == 2 * |counts|
  {
    if counts == [] then []
    else [first(counts[0]), second(counts[0])] + Verses(counts[1..], first, second)
  }

  /** The lines for the `i`-th count are lines `2 i` and `2 i + 1`. */
  lemma {:induction false} VersesAt(counts: seq<int>, first: int -> string, second: int -> string, i: nat)
    requires i < |counts|
    ensures Verses(counts, first, second)[2 * i] == first(counts[i])
    ensures Verses(counts, first, second)[2 * i + 1] == second(counts[i])
  {
    if i > 0 {
      VersesAt(counts[1..], first, second, i - 1);
    }
  }

  /**
   * `generate_song(the_range, beverage)`, drained: the verse of each count
   * in order.  The source's defaults are `Countdown(99)` and `milk`.
   */
  function GenerateSong(theRange: seq<int>, beverage: string): seq<string> {
    Verses(theRange, count => FirstLine(count, beverage), SecondLine)
  }

  /** The verse for the `i`-th count is lines `2 i` and `2 i + 1`. */
  lemma SongVerse(theRange: seq<int>, beverage: string, i: nat)
    requires i < |theRange|
    ensures |GenerateSong(theRange, beverage)| == 2 * |theRange|
    ensures GenerateSong(theRange, beverage)[2 * i] == FirstLine(theRange[i], beverage)
    ensures GenerateSong(theRange, beverage)[2 * i + 1] == SecondLine(theRange[i])
  {
    VersesAt(theRange, count => FirstLine(count, beverage), SecondLine, i);
  }

  /**
   * The second line of a verse announces the bottles the next count's
   * first line begins with only from two on: after one it says `0 bottle`.
   */
  lemma SecondLineAsWritten(count: int)
    ensures SecondLine(count) == TakeOneDown + Bottles(count - 1) <==> count >= 2
  {
    var tail := if count - 1 > 1 then "s" else "";
    var want := if count - 1 != 1 then "s" else "";
    assert SecondLine(count) == TakeOneDown + Text.IntToString(count - 1) + " bottle" + tail;
    assert TakeOneDown + Bottles(count - 1) == TakeOneDown + Text.IntToString(count - 1) + " bottle" + want;
    if count < 2 {
      assert |tail| != |want|;
    }
  }

  /**
   * The second line as intended: the same plural rule as the first line.
   * It differs from the line as written exactly for the counts below 2,
   * where it adds the plural `s` the source leaves off.
   */
  function SecondLineIntended(count: int): (line: string)
    ensures line == SecondLine(count) <==> count >= 2
    ensures count < 2 ==> line == SecondLine(count) + "s"
  {
    var line := TakeOneDown + Bottles(count - 1);
    SecondLineAsWritten(count);
    line
  }

  /**
   * With the intended second line, each verse ends with the words the
   * next verse's first line starts with.
   */
  lemma IntendedAnnouncesNext(count: int, beverage: string)
    ensures SecondLineIntended(count)[|TakeOneDown|..] == FirstLine(count - 1, beverage)[..|Bottles(count - 1)|]
  {
    var b := Bottles(count - 1);
    var rest := " of " + beverage + " on the wall, " + b + " of " + beverage + ".";
    assert FirstLine(count - 1, beverage) == b + rest;
    assert (b + rest)[..|b|] == b;
    assert (TakeOneDown + b)[|TakeOneDown|..] == b;
  }

  /** `char_freq(characters)`: count every character. */
  method CharFreq(characters: string) returns (totalFrequency: map<char, nat>)
    ensures totalFrequency == Tally(characters)
  {
    totalFrequency := map[];
    for i := 0 to |characters|
      invariant totalFrequency == Tally(characters[..i])
    {
      var counter := characters[i];
      assert characters[..i + 1] == characters[..i] + [counter];
      TallySnoc(characters[..i], counter);
      totalFrequency := totalFrequency[counter := if counter in totalFrequency then totalFrequency[counter] + 1 else 1];
    }
    assert characters[..|characters|] == characters;
  }
}
