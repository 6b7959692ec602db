/**
 * Lab 6, palindromes: the `is_palindrome` check as the source writes it,
 * which grows the line with folded copies of its own characters, and the
 * check its name and its punctuation table point to.
 */
module Palindrome {
  import opened Wrappers
  import opened Sequences
  import opened Latin1

  /** `PUNCTUATION`. */
  const Punctuation: string := " \",<>./?@#$%^&*_~"

  /** The rebound `line` after `k` rounds: the line, then its first `k` characters folded. */
  function Grown(line: string, k: nat): string
    requires k <= |line|
  {
    line + Casefold(line[..k])
  }

  /** Round `k` returns True: its character is punctuation and the grown line reads the same backwards. */
  predicate FiresAt(line: string, k: nat)
    requires k < |line|
  {
    line[k] in Punctuation && Grown(line, k + 1) == Reverse(Grown(line, k + 1))
  }

  /** Each round appends the folded form of the next character. */
  lemma GrownStep(line: string, k: nat)
    requires k < |line|
    ensures Grown(line, k + 1) == Grown(line, k) + Fold(line[k])
  {
    assert line[..k + 1] == line[..k] + [line[k]];
    CasefoldConcat(line[..k], [line[k]]);
    assert Casefold([line[k]]) == Fold(line[k]) + Casefold([]);
  }

  /**
   * `is_palindrome(line)` as written: True at the first round that fires,
   * otherwise it falls off the end and gives None; never False.
   */
  method IsPalindrome(line: string) returns (r: Option<bool>)
    ensures r == None || r == Some(true)
    ensures r == Some(true) <==> exists k :: 0 <= k < |line| && FiresAt(line, k)
  {
    var grown := line;
    for k := 0 to |line|
      invariant grown == Grown(line, k)
      invariant forall j :: 0 <= j < k ==> !FiresAt(line, j)
    {
      var word := line[k];
      GrownStep(line, k);
      grown := grown + Fold(word);
      if grown == Reverse(grown) && word in Punctuation {
        assert FiresAt(line, k);
        return Some(true);
      }
    }
    return None;
  }

  /** A line without punctuation never fires: `racecar` is not recognised. */
  lemma RacecarNotRecognised()
    ensures forall k :: 0 <= k < |"racecar"| ==> !FiresAt("racecar", k)
  {
    forall k | 0 <= k < |"racecar"|
      ensures "racecar"[k] !in Punctuation
    {
    }
  }

  /** The characters of `s` outside `PUNCTUATION`, in order. */
  function Strip(s: string): (r: string)
    ensures forall i :: 0 <= i < |r| ==> r[i] !in Punctuation
  {
    if s == [] then [] else (if s[0] in Punctuation then [] else [s[0]]) + Strip(s[1..])
  }

  /** What a palindrome check compares: the folded line without punctuation. */
  function Cleaned(line: string): string {
    Casefold(Strip(line))
  }

  /** The check as intended: the cleaned line reads the same backwards. */
  predicate IsPalindromeIntended(line: string) {
    Cleaned(line) == Reverse(Cleaned(line))
  }

  lemma {:induction false} StripConcat(a: string, b: string)
    ensures Strip(a + b) == Strip(a) + Strip(b)
  {
    if a == [] {
      assert a + b == b;
    } else {
      assert (a + b)[1..] == a[1..] + b;
      StripConcat(a[1..], b);
    }
  }

  lemma {:induction false} StripReverse(s: string)
    ensures Strip(Reverse(s)) == Reverse(Strip(s))
  {
    if s != [] {
      var head := if s[0] in Punctuation then [] else [s[0]];
      StripReverse(s[1..]);
      StripConcat(Reverse(s[1..]), [s[0]]);
      assert Strip([s[0]]) == head + Strip([]);
      ReverseConcat(head, Strip(s[1..]));
      assert Reverse(head) == head;
    }
  }

  lemma {:induction false} CasefoldReverse(s: string)
    ensures Casefold(Reverse(s)) == Reverse(Casefold(s))
  {
    if s != [] {
      var f := Fold(s[0]);
      CasefoldReverse(s[1..]);
      CasefoldConcat(Reverse(s[1..]), [s[0]]);
      assert Casefold([s[0]]) == f + Casefold([]);
      ReverseConcat(f, Casefold(s[1..]));
      assert Reverse(f) == f;
    }
  }

  /** Cleaning commutes with reversing. */
  lemma CleanedReverse(line: string)
    ensures Cleaned(Reverse(line)) == Reverse(Cleaned(line))
  {
    StripReverse(line);
    CasefoldReverse(Strip(line));
  }

  /** A line is a palindrome exactly when its reverse is. */
  lemma IntendedSymmetric(line: string)
    ensures IsPalindromeIntended(Reverse(line)) <==> IsPalindromeIntended(line)
  {
    CleanedReverse(line);
    ReverseTwice(Cleaned(line));
  }

  /** A line followed by its own reverse is a palindrome. */
  lemma IntendedMirror(line: string)
    ensures IsPalindromeIntended(line + Reverse(line))
  {
    var c := Cleaned(line);
    StripConcat(line, Reverse(line));
    CasefoldConcat(Strip(line), Strip(Reverse(line)));
    CleanedReverse(line);
    ReverseConcat(c, Reverse(c));
    ReverseTwice(c);
  }

  /** Small ASCII letters are not punctuation, so stripping keeps them. */
  lemma {:induction false} StripNothing(s: string)
    requires forall i :: 0 <= i < |s| ==> 'a' <= s[i] <= 'z'
    ensures Strip(s) == s
  {
    if s != [] {
      StripNothing(s[1..]);
    }
  }

  /** Small ASCII letters fold to themselves. */
  lemma {:induction false} CasefoldSmall(s: string)
    requires forall i :: 0 <= i < |s| ==> 'a' <= s[i] <= 'z'
    ensures Casefold(s) == s
  {
    if s != [] {
      CasefoldSmall(s[1..]);
    }
  }

  /** `racecar` has nothing to clean. */
  lemma RacecarClean()
    ensures Cleaned("racecar") == "racecar"
  {
    var s := "racecar";
    assert forall i :: 0 <= i < |s| ==> 'a' <= s[i] <= 'z';
    StripNothing(s);
    CasefoldSmall(s);
  }

  /** `racecar` reads the same backwards. */
  lemma RacecarReverse()
    ensures Reverse("racecar") == "racecar"
  {
    var r := Reverse("racecar");
    assert r[0] == 'r' && r[1] == 'a' && r[2] == 'c' && r[3] == 'e' && r[4] == 'c' && r[5] == 'a' && r[6] == 'r';
  }

  /** `racecar` is a palindrome as intended. */
  lemma RacecarIntended()
    ensures IsPalindromeIntended("racecar")
  {
    RacecarClean();
    RacecarReverse();
  }
}
