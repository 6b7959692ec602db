/**
 * Lab 6, hapax legomena: count the case-folded, whitespace-separated
 * tokens of a text, then report how many distinct words there are and
 * how many of them occur exactly once.
 */
module Hapax {
  import opened Wrappers
  import Text
  import opened Latin1
  import opened Counting

  /** The tokens of each line in turn: `line.casefold().split()`. */
  function Tokens(lines: seq<string>): (tokens: seq<string>)
    ensures forall k :: 0 <= k < |tokens| ==> Text.IsWord(tokens[k])
  {
    if lines == [] then []
    else Tokens(lines[..|lines| - 1]) + Text.Split(Casefold(lines[|lines| - 1]))
  }

  /** `counter(file)`: count every token of every line. */
  method Counter(file: seq<string>) returns (wordCounter: map<string, nat>)
    ensures wordCounter == Tally(Tokens(file))
  {
    wordCounter := map[];
    for i := 0 to |file|
      invariant wordCounter == Tally(Tokens(file[..i]))
    {
      ghost var before := Tokens(file[..i]);
      var words := Text.Split(Casefold(file[i]));
      wordCounter := CountWords(before, wordCounter, words);
      assert file[..i + 1][..i] == file[..i];
    }
    assert file[..|file|] == file;
  }

  /** The inner loop of `counter`: count the tokens of one line on top of `counts`. */
  method CountWords(ghost before: seq<string>, counts: map<string, nat>, words: seq<string>)
    returns (wordCounter: map<string, nat>)
    requires counts == Tally(before)
    ensures wordCounter == Tally(before + words)
  {
    wordCounter := counts;
    assert before + words[..0] == before;
    for j := 0 to |words|
      invariant wordCounter == Tally(before + words[..j])
    {
      var word := words[j];
      assert before + words[..j + 1] == (before + words[..j]) + [word];
      TallySnoc(before + words[..j], word);
      wordCounter := wordCounter[word := if word in wordCounter then wordCounter[word] + 1 else 1];
    }
    assert words[..|words|] == words;
  }

  /** Folding each line first changes nothing: the count ignores case. */
  lemma {:induction false} TokensIgnoreCase(lines: seq<string>, folded: seq<string>)
    requires |folded| == |lines|
    requires forall i :: 0 <= i < |lines| ==> folded[i] == Casefold(lines[i])
    ensures Tokens(folded) == Tokens(lines)
  {
    if lines != [] {
      var n := |lines| - 1;
      TokensIgnoreCase(lines[..n], folded[..n]);
      CasefoldTwice(lines[n]);
    }
  }

  /** Folding distributes over joining with spaces. */
  lemma {:induction false} CasefoldJoin(words: seq<string>)
    requires forall k :: 0 <= k < |words| ==> Casefold(words[k]) == words[k]
    ensures Casefold(Text.Join(words)) == Text.Join(words)
  {
    if |words| > 1 {
      var w, rest := words[0], Text.Join(words[1..]);
      CasefoldJoin(words[1..]);
      CasefoldConcat(w + " ", rest);
      CasefoldConcat(w, " ");
      assert Casefold(" ") == " " by {
        assert Casefold(" ") == Fold(' ') + Casefold([]);
      }
      assert Text.Join(words) == (w + " ") + rest;
    }
  }

  /**
   * Only case is folded: a line of already folded words, punctuation and
   * all, counts exactly those words.
   */
  lemma KeepsPunctuation(words: seq<string>)
    requires forall k :: 0 <= k < |words| ==> Text.IsWord(words[k]) && Casefold(words[k]) == words[k]
    ensures Tokens([Text.Join(words)]) == words
  {
    CasefoldJoin(words);
    Text.SplitJoin(words);
    assert [Text.Join(words)][..0] == [];
  }

  /** The number of unique words, `len(counts.keys())`: the distinct tokens. */
  lemma UniqueWords(file: seq<string>)
    ensures |Tally(Tokens(file)).Keys| == |set k | 0 <= k < |Tokens(file)| :: Tokens(file)[k]|
  {
    var tokens := Tokens(file);
    TallyCounts(tokens);
    assert Tally(tokens).Keys == set k | 0 <= k < |tokens| :: tokens[k];
  }

  /** The hapax loop of `main`: one for each count that is exactly one. */
  method CountHapaxes(counts: map<string, nat>) returns (hapaxes: nat)
    ensures hapaxes == Hapaxes(counts)
  {
    hapaxes := 0;
    var rest := counts.Keys;
    while rest != {}
      invariant rest <= counts.Keys
      invariant hapaxes == |set k | k in counts && k !in rest && counts[k] == 1|
      decreases |rest|
    {
      var k :| k in rest;
      var seen := set j | j in counts && j !in rest && counts[j] == 1;
      var seen' := set j | j in counts && j !in rest - {k} && counts[j] == 1;
      if counts[k] == 1 {
        assert seen' == seen + {k};
        hapaxes := hapaxes + 1;
      } else {
        assert seen' == seen;
      }
      rest := rest - {k};
    }
    assert (set k | k in counts && k !in rest && counts[k] == 1) == set k | k in counts && counts[k] == 1;
  }

  /** The words that occur exactly once among `tokens`. */
  function Singles(tokens: seq<string>): set<string> {
    set w | w in tokens && Count(tokens, w) == 1
  }

  /** A hapax is a token that occurs exactly once. */
  lemma HapaxesOfTokens(file: seq<string>)
    ensures Hapaxes(Tally(Tokens(file))) == |Singles(Tokens(file))|
    ensures forall w :: w in Singles(Tokens(file)) <==> w in Tokens(file) && Count(Tokens(file), w) == 1
  {
    HapaxesOf(Tokens(file));
  }

  /** The keys of a tally whose count is one are the words that occur once. */
  lemma HapaxesOf(tokens: seq<string>)
    ensures Hapaxes(Tally(tokens)) == |Singles(tokens)|
  {
    var m := Tally(tokens);
    TallyCounts(tokens);
    var once := set k | k in m && m[k] == 1;
    assert Hapaxes(m) == |once|;
    assert forall w :: w in once <==> w in Singles(tokens);
    assert once == Singles(tokens);
  }

  /**
   * The `"the"` count of `main` as written: the loop over
   * `zip(count(), counts)` leaves the index of the last key, one less than
   * the number of keys; with no keys at all the variable is never bound.
   */
  function CountTheAsWritten(counts: map<string, nat>): (r: Result<int>)
    ensures r.Err? <==> counts == map[]
    ensures r.Err? ==> r.error == UnboundLocalError
    ensures r.Ok? ==> r.value == |counts| - 1
  {
    if |counts| == 0 then
      assert counts.Keys == {};
      Err(UnboundLocalError)
    else Ok(|counts| - 1)
  }

  /** The count of `"the"` the report means to give: its entry in the counts. */
  function CountThe(counts: map<string, nat>): nat {
    if "the" in counts then counts["the"] else 0
  }

  /** The intended count is the number of times `the` occurs among the tokens. */
  lemma CountTheIsOccurrences(file: seq<string>)
    ensures CountThe(Tally(Tokens(file))) == Count(Tokens(file), "the")
  {
    TallyCounts(Tokens(file));
  }

  /** Two of `the` and one other word: the loop reports 1, the text has 2. */
  lemma CountTheDiffers()
    ensures CountTheAsWritten(Tally(["the", "the", "cat"])) == Ok(1)
    ensures CountThe(Tally(["the", "the", "cat"])) == 2
  {
    var s := ["the", "the", "cat"];
    TallyCounts(s);
    assert "the" != "cat";
    assert s[..2][..1] == ["the"] && s[..2] == ["the", "the"];
    assert Tally(s).Keys == {"the", "cat"};
  }
}
