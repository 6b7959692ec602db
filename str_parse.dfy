/**
 * The parts of Python's `str` and `int` that reading a typed Bible
 * reference relies on: `s.rsplit(None, 1)`, `s.split(':')` and `int(s)`,
 * each with the property that ties it to its counterpart in `Text`.
 */
module StrParse {
  import opened Wrappers
  import opened Text
  import opened Sequences

  /** `len(s.rstrip())`: the end of `s` without its trailing whitespace. */
  function TrimEnd(s: string): (e: nat)
    ensures e <= |s|
    ensures forall i :: e <= i < |s| ==> IsSpace(s[i])
    ensures e > 0 ==> !IsSpace(s[e - 1])
  {
    if s == [] || !IsSpace(s[|s| - 1]) then |s| else TrimEnd(s[..|s| - 1])
  }

  /** `len(s) - len(s.lstrip())`: where `s` starts without its leading whitespace. */
  function TrimStart(s: string): (b: nat)
    ensures b <= |s|
    ensures forall i :: 0 <= i < b ==> IsSpace(s[i])
    ensures b < |s| ==> !IsSpace(s[b])
  {
    if s == [] || !IsSpace(s[0]) then 0 else 1 + TrimStart(s[1..])
  }

  /** Where the run of non-whitespace characters that ends at `e` begins. */
  function WordStart(s: string, e: nat): (j: nat)
    requires e <= |s|
    ensures j <= e
    ensures forall i :: j <= i < e ==> !IsSpace(s[i])
    ensures j > 0 ==> IsSpace(s[j - 1])
  {
    if e == 0 || IsSpace(s[e - 1]) then e else WordStart(s, e - 1)
  }

  /**
   * `s.rsplit(None, 1)` unpacked into two names: the text before the last
   * run of whitespace, without trailing whitespace, and the last word.
   * Python returns fewer than two parts, so the unpacking raises
   * ValueError, when `s` holds fewer than two words; that is `None` here.
   */
  function RSplitOnce(s: string): Option<(string, string)> {
    var e := TrimEnd(s);
    var j := WordStart(s, e);
    var k := TrimEnd(s[..j]);
    if k == 0 then None else Some((s[..k], s[j..e]))
  }

  /** A word followed by whitespace or nothing comes first in the split. */
  lemma SplitAfterWord(w: string, rest: string)
    requires IsWord(w) && (rest == [] || IsSpace(rest[0]))
    ensures Split(w + rest) == [w] + Split(rest)
  {
    LeadingWordOfWord(w, rest);
    assert (w + rest)[0] == w[0];
    assert (w + rest)[|w|..] == rest;
  }

  /** One step of `SplitConcat`: a leading word stays in front of the words after it. */
  lemma SplitConcatWord(w: string, rest: string, b: string)
    requires IsWord(w) && (rest == [] || IsSpace(rest[0]))
    requires Split(rest + b) == Split(rest) + Split(b)
    requires rest == [] ==> b == [] || IsSpace(b[0])
    ensures Split(w + (rest + b)) == Split(w + rest) + Split(b)
  {
    var tail := rest + b;
    SplitAfterWord(w, rest);
    SplitAfterWord(w, tail);
    Associative([w], Split(rest), Split(b));
  }


  /** Whitespace on either side of a cut keeps the words on each side apart. */
  lemma {:induction false} SplitConcat(a: string, b: string)
    requires a == [] || b == [] || IsSpace(a[|a| - 1]) || IsSpace(b[0])
    ensures Split(a + b) == Split(a) + Split(b)
    decreases |a|
  {
    if a == [] {
      assert a + b == b;
    } else if IsSpace(a[0]) {
      assert (a + b)[1..] == a[1..] + b;
      SplitConcat(a[1..], b);
    } else {
      var w := LeadingWord(a);
      var rest := a[|w|..];
      assert a == w + rest;
      assert a + b == w + (rest + b);
      if rest != [] {
        SplitConcat(rest, b);
      } else {
        assert rest + b == b;
      }
      SplitConcatWord(w, rest, b);
    }
  }

  /** Whitespace alone holds no words. */
  lemma {:induction false} SplitBlank(s: string)
    requires forall i :: 0 <= i < |s| ==> IsSpace(s[i])
    ensures Split(s) == []
  {
    if s != [] {
      SplitBlank(s[1..]);
    }
  }

  /** A single word splits into itself. */
  lemma SplitWord(w: string)
    requires IsWord(w)
    ensures Split(w) == [w]
  {
    SplitAfterWord(w, []);
    assert w + [] == w;
  }

  /** Text with a character other than whitespace holds at least one word. */
  lemma {:induction false} SplitNonEmpty(s: string, i: nat)
    requires i < |s| && !IsSpace(s[i])
    ensures Split(s) != []
  {
    if IsSpace(s[0]) {
      SplitNonEmpty(s[1..], i - 1);
    }
  }

  /** A cut next to whitespace splits the words into those before and after it. */
  lemma SplitCut(s: string, m: nat)
    requires m <= |s|
    requires m == 0 || m == |s| || IsSpace(s[m - 1]) || IsSpace(s[m])
    ensures Split(s) == Split(s[..m]) + Split(s[m..])
  {
    assert s == s[..m] + s[m..];
    SplitConcat(s[..m], s[m..]);
  }

  /** Whitespace between `m` and `n` adds no words to the text before `m`. */
  lemma SplitDropBlank(s: string, m: nat, n: nat)
    requires m <= n <= |s|
    requires forall i :: m <= i < n ==> IsSpace(s[i])
    ensures Split(s[..n]) == Split(s[..m])
  {
    var front := s[..n];
    SplitCut(front, m);
    assert front[..m] == s[..m];
    SplitBlank(front[m..]);
    NoneAfter(Split(s[..m]));
  }

  /**
   * Cutting out whitespace between `k` and `j` and after `e` leaves the
   * words before `k` and the words between `j` and `e`.
   */
  lemma SplitAround(s: string, k: nat, j: nat, e: nat)
    requires k <= j <= e <= |s|
    requires forall i :: k <= i < j ==> IsSpace(s[i])
    requires forall i :: e <= i < |s| ==> IsSpace(s[i])
    requires j == 0 || IsSpace(s[j - 1])
    ensures Split(s) == Split(s[..k]) + Split(s[j..e])
  {
    assert s[..|s|] == s;
    SplitDropBlank(s, e, |s|);
    var front := s[..e];
    SplitCut(front, j);
    assert front[..j] == s[..j] && front[j..] == s[j..e];
    SplitDropBlank(s, k, j);
  }


  /**
   * What `rsplit(None, 1)` promises: it fails exactly when there are fewer
   * than two words; otherwise the last word is split off and the words of
   * the text before it are all the other words.
   */
  lemma RSplitOnceWords(s: string)
    ensures RSplitOnce(s).None? <==> |Split(s)| < 2
    ensures RSplitOnce(s).Some? ==>
      var (prefix, pair) := RSplitOnce(s).value;
      IsWord(pair) && Split(s) == Split(prefix) + [pair]
  {
    var e := TrimEnd(s);
    var j := WordStart(s, e);
    var front := s[..j];
    var k := TrimEnd(front);
    assert forall i :: k <= i < j ==> s[i] == front[i];
    assert k > 0 ==> s[k - 1] == front[k - 1];
    LastWordParts(s, k, j, e);
  }

  /**
   * The split of text cut as `[..k]` (the words before), `[k..j]`
   * (whitespace), `[j..e]` (the last word) and `[e..]` (whitespace).
   */
  lemma LastWordParts(s: string, k: nat, j: nat, e: nat)
    requires k <= j <= e <= |s|
    requires forall i :: k <= i < j ==> IsSpace(s[i])
    requires forall i :: j <= i < e ==> !IsSpace(s[i])
    requires forall i :: e <= i < |s| ==> IsSpace(s[i])
    requires j == 0 || IsSpace(s[j - 1])
    requires e > 0 ==> !IsSpace(s[e - 1])
    requires k > 0 ==> !IsSpace(s[k - 1])
    ensures k == 0 <==> |Split(s)| < 2
    ensures k > 0 ==> IsWord(s[j..e]) && Split(s) == Split(s[..k]) + [s[j..e]]
  {
    SplitAround(s, k, j, e);
    var word := s[j..e];
    if k == 0 {
      SplitBlank(s[..k]);
      if j < e {
        SplitWord(word);
      } else {
        SplitBlank(word);
      }
    } else {
      SplitWord(word);
      SplitNonEmpty(s[..k], k - 1);
    }
  }

  /** `s.split(sep)` for a one-character separator: the pieces between separators. */
  function SplitOn(s: string, sep: char): (parts: seq<string>)
    ensures |parts| >= 1
  {
    if s == [] then [""]
    else
      var rest := SplitOn(s[1..], sep);
      if s[0] == sep then [""] + rest else [[s[0]] + rest[0]] + rest[1..]
  }

  /** Text without the separator is one piece; text before it joins the first piece. */
  lemma {:induction false} SplitOnPrefix(a: string, s: string, sep: char)
    requires sep !in a
    ensures SplitOn(a + s, sep) == [a + SplitOn(s, sep)[0]] + SplitOn(s, sep)[1..]
  {
    if a != [] {
      assert (a + s)[1..] == a[1..] + s;
      SplitOnPrefix(a[1..], s, sep);
      assert [a[0]] + (a[1..] + SplitOn(s, sep)[0]) == a + SplitOn(s, sep)[0];
    } else {
      var parts := SplitOn(s, sep);
      assert a + s == s;
      assert a + parts[0] == parts[0];
      assert [parts[0]] + parts[1..] == parts;
    }
  }

  /** Two pieces joined by one separator split back into those pieces. */
  lemma SplitOnPair(a: string, b: string, sep: char)
    requires sep !in a && sep !in b
    ensures SplitOn(a + [sep] + b, sep) == [a, b]
  {
    assert a + [sep] + b == a + ([sep] + b);
    assert b + [] == b;
    SplitOnPrefix(b, [], sep);
    assert ([sep] + b)[1..] == b;
    SplitOnPrefix(a, [sep] + b, sep);
    assert a + "" == a;
  }

  /** The value of decimal digits, most significant first, with `_` separators skipped. */
  function DigitsValue(s: string): nat
    decreases |s|
  {
    if s == [] then 0
    else if s[|s| - 1] == '_' then DigitsValue(s[..|s| - 1])
    else 10 * DigitsValue(s[..|s| - 1]) + (s[|s| - 1] as int - '0' as int) % 10
  }

  /** The characters at `i` and `i + 1` are not both underscores. */
  predicate NotDoubled(s: string, i: nat)
    requires i + 1 < |s|
  {
    s[i] != '_' || s[i + 1] != '_'
  }

  /** The digit grammar of `int()`: digits, with single underscores between digits. */
  predicate IsDigitRun(s: string) {
    && |s| > 0 && IsDigit(s[0]) && IsDigit(s[|s| - 1])
    && (forall i :: 0 <= i < |s| ==> IsDigit(s[i]) || s[i] == '_')
    && (forall i: nat :: i + 1 < |s| ==> NotDoubled(s, i))
  }

  /** An optional sign followed by a digit run: the stripped text `int()` reads. */
  function ParseToken(t: string): Option<int>
    requires |t| > 0
  {
    var negative := t[0] == '-';
    var body := if t[0] == '-' || t[0] == '+' then t[1..] else t;
    if !IsDigitRun(body) then None
    else
      var n: int := DigitsValue(body);
      Some(if negative then -n else n)
  }

  /**
   * `int(s)` in base 10 for ASCII text: surrounding whitespace is ignored,
   * then an optional sign and a digit run; anything else is ValueError,
   * `None` here.
   */
  function ParseInt(s: string): Option<int> {
    var b, e := TrimStart(s), TrimEnd(s);
    if e <= b then None else ParseToken(s[b..e])
  }

  /** Reading back the digits of a number gives the number. */
  lemma {:induction false} DigitsValueOfDigits(n: nat)
    ensures DigitsValue(Digits(n)) == n
  {
    if n >= 10 {
      var front := Digits(n / 10);
      var s := front + [('0' as int + n % 10) as char];
      assert s[..|s| - 1] == front;
      DigitsValueOfDigits(n / 10);
    }
  }

  /** A run of zeros has the value 0. */
  lemma {:induction false} ZerosValue(z: string)
    requires forall i :: 0 <= i < |z| ==> z[i] == '0'
    ensures DigitsValue(z) == 0
    decreases |z|
  {
    if z != [] {
      ZerosValue(z[..|z| - 1]);
    }
  }

  /** Leading zeros do not change the value of digits. */
  lemma {:induction false} LeadingZerosValue(z: string, d: string)
    requires forall i :: 0 <= i < |z| ==> z[i] == '0'
    ensures DigitsValue(z + d) == DigitsValue(d)
    decreases |d|
  {
    if d == [] {
      assert z + d == z;
      ZerosValue(z);
    } else {
      var n := |d| - 1;
      assert (z + d)[..|z + d| - 1] == z + d[..n];
      assert (z + d)[|z + d| - 1] == d[n];
      LeadingZerosValue(z, d[..n]);
    }
  }

  /** `format(n, '0{width}')` reads back as `n`. */
  lemma ZeroPadValue(n: nat, width: nat)
    ensures DigitsValue(ZeroPad(n, width)) == n
  {
    var d := Digits(n);
    DigitsValueOfDigits(n);
    if |d| < width {
      LeadingZerosValue(seq(width - |d|, _ => '0'), d);
    }
  }

  /** `int(format(n, '0{width}')) == n`. */
  lemma ParseZeroPad(n: nat, width: nat)
    ensures ParseInt(ZeroPad(n, width)) == Some(n as int)
  {
    ParseDigits(ZeroPad(n, width));
    ZeroPadValue(n, width);
  }

  /** Text that neither starts nor ends with whitespace is left alone by `strip()`. */
  lemma TrimNothing(s: string)
    requires |s| > 0 && !IsSpace(s[0]) && !IsSpace(s[|s| - 1])
    ensures TrimStart(s) == 0 && TrimEnd(s) == |s|
  {
  }

  /** Plain digits follow the digit grammar of `int()`. */
  lemma DigitRunOfDigits(d: string)
    requires AllDigits(d) && |d| > 0
    ensures IsDigitRun(d)
  {
    forall i: nat | i + 1 < |d|
      ensures NotDoubled(d, i)
    {
      assert IsDigit(d[i]);
    }
  }

  /** Digits alone read as their value. */
  lemma ParseDigits(d: string)
    requires AllDigits(d) && |d| > 0
    ensures ParseInt(d) == Some(DigitsValue(d) as int)
  {
    DigitRunOfDigits(d);
    TrimNothing(d);
    assert d[0..|d|] == d;
  }

  /** A minus sign before a digit run reads as the negated value. */
  lemma ParseTokenNegated(d: string)
    requires IsDigitRun(d)
    ensures ParseToken("-" + d) == Some(-(DigitsValue(d) as int))
  {
    assert ("-" + d)[1..] == d;
  }

  /** A minus sign before digits reads as the negated value. */
  lemma ParseNegated(d: string)
    requires AllDigits(d) && |d| > 0
    ensures ParseInt("-" + d) == Some(-(DigitsValue(d) as int))
  {
    var s := "-" + d;
    DigitRunOfDigits(d);
    ParseTokenNegated(d);
    TrimNothing(s);
    assert s[0..|s|] == s;
  }

  /** `int(str(i)) == i`. */
  lemma ParseIntString(i: int)
    ensures ParseInt(IntToString(i)) == Some(i)
  {
    var n := if i < 0 then -i else i;
    var d := Digits(n);
    DigitsValueOfDigits(n);
    if i < 0 {
      ParseNegated(d);
    } else {
      ParseDigits(d);
    }
  }
}
