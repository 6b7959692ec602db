/**
 * The simple functions of lab 2: largest of two and of three, and loops
 * that count, add up, multiply, reverse, search and translate into the
 * robber's language.  Each loop is a method proved against a function
 * that says what it computes.
 */
module SimpleFunctions {
  import opened Sequences

  /** `max_(a, b)`: the larger value. */
  function Max(a: int, b: int): (r: int)
    ensures r >= a && r >= b
    ensures r == a || r == b
  {
    if a > b then a else b
  }

  /** `max_of_three(a, b, c)`: the largest value. */
  function MaxOfThree(a: int, b: int, c: int): (r: int)
    ensures r >= a && r >= b && r >= c
    ensures r == a || r == b || r == c
  {
    if b >= a && b >= c then b
    else if c >= a && c >= b then c
    else a
  }

  /** `len_(data)`: one count per element. */
  method Len<T>(data: seq<T>) returns (counter: nat)
    ensures counter == |data|
  {
    counter := 0;
    for i := 0 to |data|
      invariant counter == i
    {
      counter := counter + 1;
    }
  }

  /** The sum of `s`, adding from the front as a loop does. */
  function Sum(s: seq<int>): int {
    if s == [] then 0 else Sum(s[..|s| - 1]) + s[|s| - 1]
  }

  /** Sums add up over a concatenation. */
  lemma {:induction false} SumConcat(a: seq<int>, b: seq<int>)
    ensures Sum(a + b) == Sum(a) + Sum(b)
    decreases |b|
  {
    if b != [] {
      var n := |b| - 1;
      assert (a + b)[..|a + b| - 1] == a + b[..n];
      SumConcat(a, b[..n]);
    } else {
      assert a + b == a;
    }
  }

  /** `sum_(data)`. */
  method SumOf(data: seq<int>) returns (total: int)
    ensures total == Sum(data)
  {
    total := 0;
    for i := 0 to |data|
      invariant total == Sum(data[..i])
    {
      assert data[..i + 1][..i] == data[..i];
      total := total + data[i];
    }
    assert data[..|data|] == data;
  }

  /** The product of `s`, multiplying from the front as a loop does. */
  function Product(s: seq<int>): int {
    if s == [] then 1 else Product(s[..|s| - 1]) * s[|s| - 1]
  }

  /** Products multiply over a concatenation. */
  lemma {:induction false} ProductConcat(a: seq<int>, b: seq<int>)
    ensures Product(a + b) == Product(a) * Product(b)
    decreases |b|
  {
    if b != [] {
      var n := |b| - 1;
      assert (a + b)[..|a + b| - 1] == a + b[..n];
      ProductConcat(a, b[..n]);
    } else {
      assert a + b == a;
    }
  }

  /** A zero anywhere makes the product zero. */
  lemma {:induction false} ProductZero(s: seq<int>)
    requires 0 in s
    ensures Product(s) == 0
    decreases |s|
  {
    if s[|s| - 1] != 0 {
      assert 0 in s[..|s| - 1] by {
        var i :| 0 <= i < |s| && s[i] == 0;
        assert s[..|s| - 1][i] == 0;
      }
      ProductZero(s[..|s| - 1]);
    }
  }

  /** `multiply(data)`. */
  method Multiply(data: seq<int>) returns (totalProduct: int)
    ensures totalProduct == Product(data)
  {
    totalProduct := 1;
    for i := 0 to |data|
      invariant totalProduct == Product(data[..i])
    {
      assert data[..i + 1][..i] == data[..i];
      totalProduct := totalProduct * data[i];
    }
    assert data[..|data|] == data;
  }

  /** `reversed_(text)`: appends the characters from the last one down. */
  method Reversed(text: string) returns (reversedString: string)
    ensures reversedString == Reverse(text)
  {
    reversedString := "";
    for items := 1 to |text| + 1
      invariant |reversedString| == items - 1
      invariant forall i :: 0 <= i < items - 1 ==> reversedString[i] == text[|text| - 1 - i]
    {
      reversedString := reversedString + [text[|text| - items]];
    }
  }

  /** The vowels `is_vowel` looks in by default. */
  const Vowels: string := "AEIOUaeiou"

  /**
   * `is_vowel(character, vowels)`: whether `character` equals one of the
   * one-character strings of `vowels`, so only a single character can be
   * a vowel.
   */
  method IsVowel(character: string, vowels: string := Vowels) returns (b: bool)
    ensures b <==> |character| == 1 && character[0] in vowels
  {
    for i := 0 to |vowels|
      invariant forall j :: 0 <= j < i ==> [vowels[j]] != character
    {
      if [vowels[i]] == character {
        return true;
      }
    }
    return false;
  }

  /** `is_member(item, array)`: a scan that breaks at the first match. */
  method IsMember<T(==)>(item: T, elements: seq<T>) returns (b: bool)
    ensures b <==> item in elements
  {
    var i := 0;
    while i < |elements|
      invariant 0 <= i <= |elements|
      invariant item !in elements[..i]
    {
      if elements[i] == item {
        break;
      }
      assert elements[..i + 1] == elements[..i] + [elements[i]];
      i := i + 1;
    }
    assert i == |elements| ==> elements[..i] == elements;
    b := i < |elements|;
  }

  /** `overlapping(list_a, list_b)`: whether some element of one equals some element of the other. */
  method Overlapping<T(==)>(listA: seq<T>, listB: seq<T>) returns (r: bool)
    ensures r <==> exists i, j :: 0 <= i < |listA| && 0 <= j < |listB| && listA[i] == listB[j]
  {
    for i := 0 to |listA|
      invariant forall k, j :: 0 <= k < i && 0 <= j < |listB| ==> listA[k] != listB[j]
    {
      for j := 0 to |listB|
        invariant forall k :: 0 <= k < j ==> listA[i] != listB[k]
      {
        if listA[i] == listB[j] {
          return true;
        }
      }
    }
    return false;
  }

  /** The consonants `translate` doubles by default. */
  const Consonants: string := "bcdfghjklmnpqrstvwxyzBCDFGHJKLMNPQRSTVWXYZ"

  /** How many characters of `text` are in `consonant`. */
  function CountIn(text: string, consonant: string): (n: nat)
    ensures n <= |text|
  {
    if text == [] then 0 else (if text[0] in consonant then 1 else 0) + CountIn(text[1..], consonant)
  }

  /**
   * The robber's language: each consonant `c` becomes `c`, `o`, `c`,
   * every other character stays.
   */
  function Robber(text: string, consonant: string): (r: string)
    ensures |r| == |text| + 2 * CountIn(text, consonant)
  {
    if text == [] then []
    else (if text[0] in consonant then [text[0], 'o', text[0]] else [text[0]]) + Robber(text[1..], consonant)
  }

  /** Translating two pieces of text translates each. */
  lemma {:induction false} RobberConcat(a: string, b: string, consonant: string)
    ensures Robber(a + b, consonant) == Robber(a, consonant) + Robber(b, consonant)
  {
    if a == [] {
      assert a + b == b;
    } else {
      assert (a + b)[1..] == a[1..] + b;
      RobberConcat(a[1..], b, consonant);
    }
  }

  /** Reading the robber's language back: `coc` for a consonant `c` is `c` again. */
  function Unrobber(s: string, consonant: string): string
    decreases |s|
  {
    if s == [] then []
    else if s[0] in consonant && |s| >= 3 && s[1] == 'o' && s[2] == s[0] then [s[0]] + Unrobber(s[3..], consonant)
    else [s[0]] + Unrobber(s[1..], consonant)
  }

  /** Reading back a translation gives the text. */
  lemma {:induction false} RobberRoundTrip(text: string, consonant: string)
    ensures Unrobber(Robber(text, consonant), consonant) == text
  {
    if text != [] {
      var c := text[0];
      var piece := if c in consonant then [c, 'o', c] else [c];
      var rest := Robber(text[1..], consonant);
      assert Robber(text, consonant) == piece + rest;
      assert (piece + rest)[|piece|..] == rest;
      RobberRoundTrip(text[1..], consonant);
    }
  }

  /** `translate(text, consonant)`: appends `c`, `o` before each consonant `c`, then `c`. */
  method Translate(text: string, consonant: string := Consonants) returns (letterAndO: string)
    ensures letterAndO == Robber(text, consonant)
  {
    letterAndO := "";
    for i := 0 to |text|
      invariant letterAndO == Robber(text[..i], consonant)
    {
      var character := text[i];
      assert text[..i + 1] == text[..i] + [character];
      RobberConcat(text[..i], [character], consonant);
      if character in consonant {
        letterAndO := letterAndO + [character] + "o";
      }
      letterAndO := letterAndO + [character];
    }
    assert text[..|text|] == text;
  }
}
