/**
 * `get_bible_reference` of lab7/4-exercies-two-edged-sword.py without its
 * console: the lines the user types are a sequence, running out of them is
 * the end-of-file that makes the program exit, and each line is either
 * accepted as a (book, chapter, verse) reference or silently asked for
 * again.  A line is accepted when it splits into a book-name prefix and a
 * `chapter:verse` pair, some book's case-folded name starts with the
 * case-folded, cleaned prefix (the first such book wins, numbered from 1),
 * and the pair holds exactly two integers.
 */
module BibleReference {
  import opened Wrappers
  import opened Text
  import opened BibleText
  import opened StrParse
  import opened BookNames

  /** `name.casefold().startswith(prefix)`: the test of the book loop. */
  predicate Matches(name: string, prefix: string) {
    prefix <= Casefold(name)
  }

  /**
   * The number, counting from 1, of the first book at or after index `i`
   * whose case-folded name starts with `prefix`.
   */
  function BookFrom(names: seq<string>, prefix: string, i: nat): (r: Option<nat>)
    ensures r.Some? ==> i < r.value <= |names| && Matches(names[r.value - 1], prefix)
    ensures r.Some? ==> forall j :: i <= j < r.value - 1 ==> !Matches(names[j], prefix)
    ensures r.None? ==> forall j :: i <= j < |names| ==> !Matches(names[j], prefix)
    decreases |names| - i
  {
    if i >= |names| then None
    else if Matches(names[i], prefix) then Some(i + 1)
    else BookFrom(names, prefix, i + 1)
  }

  /** The book the `for book, name in enumerate(...)` loop stops at, if any. */
  function BookOf(names: seq<string>, prefix: string): Option<nat> {
    BookFrom(names, prefix, 0)
  }

  /**
   * The book loop itself: walk the names in order and stop at the first
   * one that starts with `prefix`; falling off the end means no book.
   */
  method FindBook(names: seq<string>, prefix: string) returns (book: Option<nat>)
    ensures book == BookOf(names, prefix)
    ensures book.Some? ==> 1 <= book.value <= |names| && Matches(names[book.value - 1], prefix)
    ensures book.None? <==> forall j :: 0 <= j < |names| ==> !Matches(names[j], prefix)
  {
    var i := 0;
    while i < |names|
      invariant i <= |names|
      invariant BookFrom(names, prefix, i) == BookOf(names, prefix)
      invariant forall j :: 0 <= j < i ==> !Matches(names[j], prefix)
    {
      if Matches(names[i], prefix) {
        return Some(i + 1);
      }
      i := i + 1;
    }
    return None;
  }

  /**
   * `chapter, verse = map(int, pair.split(':'))`: exactly two pieces, each
   * an integer; any other shape is the ValueError that is caught, `None`.
   */
  function ParseChapterVerse(pair: string): (r: Option<(int, int)>)
    ensures r.Some? <==>
      var parts := SplitOn(pair, ':');
      |parts| == 2 && ParseInt(parts[0]).Some? && ParseInt(parts[1]).Some?
    ensures r.Some? ==> ParseInt(SplitOn(pair, ':')[0]) == Some(r.value.0)
    ensures r.Some? ==> ParseInt(SplitOn(pair, ':')[1]) == Some(r.value.1)
  {
    var parts := SplitOn(pair, ':');
    if |parts| != 2 then None
    else match (ParseInt(parts[0]), ParseInt(parts[1]))
      case (Some(chapter), Some(verse)) => Some((chapter, verse))
      case _ => None
  }

  /** What one typed line leads to. */
  datatype Attempt = Retry | Found(book: nat, chapter: int, verse: int) | Raise(error: PyError)

  /**
   * One pass of the `while True` loop on the line `text`.  The names of the
   * table are read only once the line has split in two, so a table that is
   * not locked raises only then; the error is not caught.
   */
  function ReadReference(names: Result<seq<string>>, text: string): (r: Attempt)
    ensures r.Raise? <==> RSplitOnce(text).Some? && names.Err?
    ensures r.Raise? ==> r.error == names.error
    ensures r.Found? ==> names.Ok? && 1 <= r.book <= |names.value|
    ensures r.Found? ==> RSplitOnce(text).Some?
    ensures r.Found? ==>
      var (prefix, pair) := RSplitOnce(text).value;
      && BookOf(names.value, Casefold(Clean(prefix))) == Some(r.book)
      && Matches(names.value[r.book - 1], Casefold(Clean(prefix)))
      && ParseChapterVerse(pair) == Some((r.chapter, r.verse))
    ensures RSplitOnce(text).Some? && names.Ok? ==>
      var (prefix, pair) := RSplitOnce(text).value;
      r.Found? <==> BookOf(names.value, Casefold(Clean(prefix))).Some? && ParseChapterVerse(pair).Some?
  {
    match RSplitOnce(text)
    case None => Retry
    case Some((prefix, pair)) =>
      match names
      case Err(e) => Raise(e)
      case Ok(ns) =>
        match BookOf(ns, Casefold(Clean(prefix)))
        case None => Retry
        case Some(book) =>
          match ParseChapterVerse(pair)
          case None => Retry
          case Some((chapter, verse)) => Found(book, chapter, verse)
  }

  /** How the dialogue ends: a reference, the exit on end of input, or an error. */
  datatype Answer = Reference(book: nat, chapter: int, verse: int) | Exit | Raised(error: PyError)

  /** The answer a line that is not asked for again gives. */
  function Conclude(a: Attempt): Answer {
    match a
    case Retry => Exit
    case Found(book, chapter, verse) => Reference(book, chapter, verse)
    case Raise(error) => Raised(error)
  }

  /** The answer of a run of passes: the first one that is not a retry, else the exit. */
  function Settle(attempts: seq<Attempt>): Answer {
    if attempts == [] then Exit
    else if attempts[0] == Retry then Settle(attempts[1..])
    else Conclude(attempts[0])
  }

  /** The pass each typed line would get. */
  function Attempts(names: Result<seq<string>>, lines: seq<string>): (r: seq<Attempt>)
    ensures |r| == |lines|
    ensures forall i :: 0 <= i < |lines| ==> r[i] == ReadReference(names, lines[i])
  {
    seq(|lines|, i requires 0 <= i < |lines| => ReadReference(names, lines[i]))
  }

  /** The dialogue over the typed lines, one pass per line. */
  function Dialogue(names: Result<seq<string>>, lines: seq<string>): Answer {
    Settle(Attempts(names, lines))
  }

  /** The program exits exactly when every pass is a retry. */
  lemma {:induction false} SettleExit(attempts: seq<Attempt>)
    ensures Settle(attempts) == Exit <==> forall i :: 0 <= i < |attempts| ==> attempts[i] == Retry
  {
    if attempts != [] && attempts[0] == Retry {
      SettleExit(attempts[1..]);
      assert forall i :: 1 <= i < |attempts| ==> attempts[i] == attempts[1..][i - 1];
    }
  }

  /**
   * The first pass that is not a retry decides the answer; the lines after
   * it are never read.
   */
  lemma {:induction false} SettleFirst(attempts: seq<Attempt>, i: nat)
    requires i < |attempts| && attempts[i] != Retry
    requires forall j :: 0 <= j < i ==> attempts[j] == Retry
    ensures Settle(attempts) == Conclude(attempts[i])
  {
    if i > 0 {
      var rest := attempts[1..];
      assert rest[i - 1] == attempts[i];
      assert forall j :: 0 <= j < i - 1 ==> rest[j] == attempts[j + 1];
      SettleFirst(rest, i - 1);
    }
  }

  /** The dialogue ends in the exit exactly when no typed line is accepted or raises. */
  lemma DialogueExit(names: Result<seq<string>>, lines: seq<string>)
    ensures Dialogue(names, lines) == Exit <==>
      forall i :: 0 <= i < |lines| ==> ReadReference(names, lines[i]) == Retry
  {
    SettleExit(Attempts(names, lines));
  }

  /** Otherwise the first line that is not asked for again gives the answer. */
  lemma DialogueFirst(names: Result<seq<string>>, lines: seq<string>, i: nat)
    requires i < |lines| && ReadReference(names, lines[i]) != Retry
    requires forall j :: 0 <= j < i ==> ReadReference(names, lines[j]) == Retry
    ensures Dialogue(names, lines) == Conclude(ReadReference(names, lines[i]))
  {
    SettleFirst(Attempts(names, lines), i);
  }

  /**
   * `get_bible_reference`: read lines until one names a book and a
   * chapter and verse.  The inner loop over the names is `FindBook`.
   */
  method GetBibleReference(toc: TableOfContents, lines: seq<string>) returns (answer: Answer)
    requires toc.Valid()
    ensures answer == Dialogue(toc.Names(), lines)
  {
    ghost var attempts := Attempts(toc.Names(), lines);
    var i := 0;
    while i < |lines|
      invariant i <= |lines|
      invariant Settle(attempts[i..]) == Dialogue(toc.Names(), lines)
    {
      var text := lines[i];
      assert attempts[i..][0] == ReadReference(toc.Names(), text);
      assert attempts[i..][1..] == attempts[i + 1..];
      var split := RSplitOnce(text);
      if split.Some? {
        var (prefix, pair) := split.value;
        var names := toc.Names();
        if names.Err? {
          return Raised(names.error);
        }
        var book := FindBook(names.value, Casefold(Clean(prefix)));
        if book.Some? {
          var chapterVerse := ParseChapterVerse(pair);
          if chapterVerse.Some? {
            return Reference(book.value, chapterVerse.value.0, chapterVerse.value.1);
          }
        }
      }
      i := i + 1;
    }
    return Exit;
  }

  /** `str(i)` holds neither whitespace nor a colon. */
  lemma IntToStringPlain(i: int)
    ensures forall k :: 0 <= k < |IntToString(i)| ==> !IsSpace(IntToString(i)[k])
    ensures ':' !in IntToString(i)
  {
    var s := IntToString(i);
    var d := Digits(if i < 0 then -i else i);
    assert forall k :: 0 <= k < |s| ==> s[k] == '-' || IsDigit(s[k]) by {
      if i < 0 {
        assert forall k :: 1 <= k < |s| ==> s[k] == d[k - 1];
      }
    }
  }

  /** `f'{chapter}:{verse}'` reads back as that chapter and verse. */
  lemma ChapterVerseRoundTrip(chapter: int, verse: int)
    ensures ParseChapterVerse(IntToString(chapter) + ":" + IntToString(verse)) == Some((chapter, verse))
  {
    IntToStringPlain(chapter);
    IntToStringPlain(verse);
    SplitOnPair(IntToString(chapter), IntToString(verse), ':');
    ParseIntString(chapter);
    ParseIntString(verse);
  }

  /** The typed `chapter:verse` pair is a single word. */
  lemma PairIsWord(chapter: int, verse: int)
    ensures IsWord(IntToString(chapter) + ":" + IntToString(verse))
  {
    IntToStringPlain(chapter);
    IntToStringPlain(verse);
    var a, b := IntToString(chapter), IntToString(verse);
    var p := a + ":" + b;
    assert forall k :: 0 <= k < |p| ==> p[k] == (if k < |a| then a[k] else if k == |a| then ':' else b[k - |a| - 1]);
  }

  /** Two splits that end in one word agree on everything before it. */
  lemma LastWordSplit(s: string, name: string, pair: string)
    requires RSplitOnce(s).Some?
    requires Split(s) == Split(name) + [pair]
    ensures RSplitOnce(s).value.1 == pair
    ensures Split(RSplitOnce(s).value.0) == Split(name)
  {
    RSplitOnceWords(s);
    var (prefix, last) := RSplitOnce(s).value;
    var words := Split(s);
    assert words[|words| - 1] == last && words[|words| - 1] == pair;
    assert words[..|words| - 1] == Split(prefix);
    assert words[..|words| - 1] == Split(name);
  }

  /** The words of a name, a space and a word are the name's words and that word. */
  lemma TypedWords(name: string, pair: string)
    requires IsWord(pair)
    ensures Split(name + (" " + pair)) == Split(name) + [pair]
  {
    SplitSpace(pair);
    SplitWord(pair);
    SplitConcat(name, " " + pair);
  }

  /** The typed line splits back into the typed name, cleaned, and the pair. */
  lemma TypedSplit(name: string, chapter: int, verse: int)
    requires Split(name) != []
    ensures var pair := IntToString(chapter) + ":" + IntToString(verse);
      var text := name + " " + pair;
      && RSplitOnce(text).Some?
      && RSplitOnce(text).value.1 == pair
      && Clean(RSplitOnce(text).value.0) == Clean(name)
  {
    var pair := IntToString(chapter) + ":" + IntToString(verse);
    var text := name + " " + pair;
    assert text == name + (" " + pair);
    PairIsWord(chapter, verse);
    TypedWords(name, pair);
    RSplitOnceWords(text);
    LastWordSplit(text, name, pair);
  }

  /**
   * Typing a book's name, with any spacing, then a space and
   * `chapter:verse` gives that chapter and verse and the first book whose
   * case-folded name starts like the typed one: that book or an earlier one.
   */
  lemma ReferenceRoundTrip(names: seq<string>, book: nat, name: string, chapter: int, verse: int)
    requires 1 <= book <= |names| && Clean(name) == names[book - 1]
    requires Split(name) != []
    ensures var text := name + " " + (IntToString(chapter) + ":" + IntToString(verse));
      var found := BookOf(names, Casefold(names[book - 1]));
      && found.Some? && found.value <= book
      && ReadReference(Ok(names), text) == Found(found.value, chapter, verse)
  {
    TypedSplit(name, chapter, verse);
    assert Matches(names[book - 1], Casefold(names[book - 1]));
    ChapterVerseRoundTrip(chapter, verse);
  }
}
