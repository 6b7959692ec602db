/**
 * The parts of Python's `str.isalpha` and `str.casefold` that text read as
 * Latin-1 needs: every character of such text is below U+0100.
 */
module Latin1 {
  import Text

  /**
   * `str.isalpha` on the characters of Latin-1 and their folded forms:
   * the Latin-1 letters besides `×` and `÷`, `ª`, `µ` and `º`, and the
   * Greek small mu that `µ` folds to.
   */
  predicate IsAlpha(c: char) {
    || 'a' <= c <= 'z' || 'A' <= c <= 'Z'
    || c == '\U{aa}' || c == '\U{b5}' || c == '\U{ba}' || c == '\U{3bc}'
    || ('\U{c0}' <= c <= '\U{ff}' && c != '\U{d7}' && c != '\U{f7}')
  }

  /** A capital of ASCII or Latin-1, which folds to the character 32 places on. */
  predicate IsCapital(c: char) {
    'A' <= c <= 'Z' || ('\U{c0}' <= c <= '\U{de}' && c != '\U{d7}')
  }

  /**
   * `str.casefold` on one character of Latin-1: capitals fold to their
   * small letters, `ß` to `ss` and the micro sign to Greek small mu.
   */
  function Fold(c: char): (s: string)
    ensures IsCapital(c) ==> s == [(c as int + 32) as char]
    ensures c == '\U{df}' ==> s == "ss"
    ensures !IsCapital(c) && c != '\U{df}' && c != '\U{b5}' ==> s == [c]
    ensures forall i :: 0 <= i < |s| ==> !IsCapital(s[i]) && (IsAlpha(s[i]) <==> IsAlpha(c))
  {
    if IsCapital(c) then [(c as int + 32) as char]
    else if c == '\U{df}' then "ss"
    else if c == '\U{b5}' then "\U{3bc}"
    else [c]
  }

  /** `word.casefold()`. */
  function Casefold(word: string): string {
    if word == [] then [] else Fold(word[0]) + Casefold(word[1..])
  }

  /** Folding works character by character. */
  lemma {:induction false} CasefoldConcat(a: string, b: string)
    ensures Casefold(a + b) == Casefold(a) + Casefold(b)
  {
    if a == [] {
      assert a + b == b;
    } else {
      assert (a + b)[1..] == a[1..] + b;
      CasefoldConcat(a[1..], b);
    }
  }

  /** Folding twice is folding once. */
  lemma {:induction false} CasefoldTwice(word: string)
    ensures Casefold(Casefold(word)) == Casefold(word)
  {
    if word != [] {
      CasefoldTwice(word[1..]);
      CasefoldConcat(Fold(word[0]), Casefold(word[1..]));
      var f := Fold(word[0]);
      if f == "ss" {
        assert Casefold(f) == Fold('s') + Casefold("s");
      } else {
        assert Casefold(f) == Fold(f[0]) + Casefold([]);
      }
    }
  }

  /**
   * On ASCII text this folding is the ASCII one the other modules use for
   * `str.lower` and for `str.casefold` of book names.
   */
  lemma {:induction false} AsciiCasefold(s: string)
    requires forall i :: 0 <= i < |s| ==> s[i] as int < 128
    ensures Casefold(s) == Text.Casefold(s)
  {
    if s != [] {
      AsciiCasefold(s[1..]);
      assert Text.Casefold(s) == [Text.Lower(s[0])] + Text.Casefold(s[1..]);
    }
  }
}
