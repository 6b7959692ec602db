/**
 * The verse scanner and the book/chapter/verse accumulator of
 * lab7/4-exercies-two-edged-sword.py: `parse_bible`, `read_until_locked`
 * and the class `Bible`.
 *
 * `BibleState` and `Step` give the accumulator's behaviour as values; the
 * class `Bible` keeps the same state in fields and its methods are proved
 * to follow `Step`.  `Scan` is the whole forward scan as a function, and
 * `ReadUntilLocked` is the loop proved to compute it.
 */
module BibleParser {
  import opened Wrappers
  import opened Text
  import opened BibleText
  import StrParse

  type Chapter = seq<string>
  type Book = seq<Chapter>

  /** What `+=` feeds the accumulator: verse text, or the sentinel `Bible.NEXT`. */
  datatype Event = Verse(text: string) | Next

  /** One item of the iteration over a locked Bible, 1-indexed on every axis. */
  datatype Entry = Entry(book: nat, chapter: nat, verse: nat, text: string)

  /** The private fields of a `Bible` instance. */
  datatype BibleState = BibleState(
    book: nat, chapter: nat, verse: nat,
    books: seq<Book>, chapters: seq<Chapter>, verses: seq<string>,
    locked: bool, size: nat)

  /** The state `Bible.__init__` sets up. */
  const Initial := BibleState(1, 1, 1, [], [], [], false, 0)

  /** Number of verses held in a list of chapters. */
  function VerseCount(chapters: seq<Chapter>): nat {
    if chapters == [] then 0
    else VerseCount(chapters[..|chapters| - 1]) + |chapters[|chapters| - 1]|
  }

  /** Number of verses held in a list of books. */
  function BookVerseCount(books: seq<Book>): nat {
    if books == [] then 0
    else BookVerseCount(books[..|books| - 1]) + VerseCount(books[|books| - 1])
  }

  /** Every chapter of the list holds at least one verse and every verse is cleaned text. */
  ghost predicate ChaptersFilled(chapters: seq<Chapter>) {
    forall c :: 0 <= c < |chapters| ==>
      |chapters[c]| > 0 && forall v :: 0 <= v < |chapters[c]| ==> IsNormal(chapters[c][v])
  }

  /** Every book of the list holds at least one chapter, and each chapter is filled. */
  ghost predicate BooksFilled(books: seq<Book>) {
    forall b :: 0 <= b < |books| ==> |books[b]| > 0 && ChaptersFilled(books[b])
  }

  /**
   * The invariant every `Bible` keeps: the counters are one past the
   * lengths of the lists they number, no list closed so far is empty,
   * every stored verse is cleaned, `len()` counts every stored verse, and a
   * locked Bible holds at least one book and nothing outside its book list.
   */
  ghost predicate Inv(s: BibleState) {
    && s.book >= 1 && s.chapter >= 1 && s.verse >= 1
    && |s.books| == s.book - 1
    && |s.chapters| == s.chapter - 1
    && |s.verses| == s.verse - 1
    && BooksFilled(s.books)
    && ChaptersFilled(s.chapters)
    && (forall v :: 0 <= v < |s.verses| ==> IsNormal(s.verses[v]))
    && s.size == BookVerseCount(s.books) + VerseCount(s.chapters) + |s.verses|
    && (s.locked ==> s.book > 1 && s.chapter == 1 && s.verse == 1)
  }

  /**
   * `Bible.__iadd__`: ArithmeticError once locked; verse text is cleaned
   * and appended; `NEXT` closes the current chapter, else the current book,
   * else locks, and is an EOFError when nothing has been read at all.
   * A failing call leaves the state as it was.
   */
  function Step(s: BibleState, e: Event): Result<BibleState> {
    if s.locked then Err(ArithmeticError)
    else match e
      case Verse(text) =>
        Ok(s.(verses := s.verses + [Clean(text)], verse := s.verse + 1, size := s.size + 1))
      case Next =>
        if s.verse != 1 then
          Ok(s.(chapters := s.chapters + [s.verses], verses := [], chapter := s.chapter + 1, verse := 1))
        else if s.chapter != 1 then
          Ok(s.(books := s.books + [s.chapters], chapters := [], book := s.book + 1, chapter := 1))
        else if s.book != 1 then
          Ok(s.(locked := true))
        else
          Err(EOFError)
  }

  lemma InitialInv()
    ensures Inv(Initial)
  {
  }

  /** Every successful event keeps the invariant. */
  lemma StepKeepsInv(s: BibleState, e: Event)
    requires Inv(s)
    ensures Step(s, e).Ok? ==> Inv(Step(s, e).value)
  {
    if Step(s, e).Ok? {
      var t := Step(s, e).value;
      match e
      case Verse(text) =>
        CleanNormalizes(text);
      case Next =>
        if s.verse != 1 {
          assert t.chapters[..|t.chapters| - 1] == s.chapters;
        } else if s.chapter != 1 {
          assert t.books[..|t.books| - 1] == s.books;
        }
    }
  }

  /**
   * What an event does to the counters and to `len()`: text raises the
   * verse number and the size by exactly one; `NEXT` never changes the
   * size; the only failures are a locked Bible and an empty one.
   */
  lemma StepEffects(s: BibleState, e: Event)
    requires Inv(s)
    ensures s.locked ==> Step(s, e) == Err(ArithmeticError)
    ensures !s.locked && e.Verse? ==>
      Step(s, e).Ok? && Step(s, e).value.verse == s.verse + 1 &&
      Step(s, e).value.size == s.size + 1 &&
      Step(s, e).value.verses[|s.verses|] == Clean(e.text)
    ensures !s.locked && e.Next? ==>
      (Step(s, e) == Err(EOFError) <==> s.book == 1 && s.chapter == 1 && s.verse == 1)
    ensures Step(s, e).Ok? && e.Next? ==> Step(s, e).value.size == s.size
    ensures Step(s, e).Ok? && e.Next? && Step(s, e).value.locked ==> s.verse == 1 && s.chapter == 1
  {
  }

  /** The search tag `f'{book:02}:{chapter:03}:{verse:03} '`. */
  function Tag(book: nat, chapter: nat, verse: nat): (t: string)
    ensures IsLatin1(t) && |t| >= 11
  {
    var b, c, v := ZeroPad(book, 2), ZeroPad(chapter, 3), ZeroPad(verse, 3);
    assert IsLatin1(b) && IsLatin1(c) && IsLatin1(v);
    Latin1Concat(b, ":");
    Latin1Concat(b + ":", c);
    Latin1Concat(b + ":" + c, ":");
    Latin1Concat(b + ":" + c + ":", v);
    Latin1Concat(b + ":" + c + ":" + v, " ");
    b + ":" + c + ":" + v + " "
  }

  lemma TagLayout(b: string, c: string, v: string)
    requires |b| == 2 && |c| == 3 && |v| == 3
    requires AllDigits(b) && AllDigits(c) && AllDigits(v)
    ensures var t := b + ":" + c + ":" + v + " ";
      |t| == 11 && t[2] == ':' && t[6] == ':' && t[10] == ' ' &&
      forall i :: 0 <= i < 11 && i != 2 && i != 6 && i != 10 ==> IsDigit(t[i])
  {
    var t := b + ":" + c + ":" + v + " ";
    forall i | 0 <= i < 11 && i != 2 && i != 6 && i != 10 ensures IsDigit(t[i]) {
      if i < 2 { assert t[i] == b[i]; }
      else if i < 6 { assert t[i] == c[i - 3]; }
      else { assert t[i] == v[i - 7]; }
    }
  }

  /**
   * While the counters stay below 100, 1000 and 1000 the tag is eleven
   * characters: two digits, a colon, three digits, a colon, three digits
   * and a space.
   */
  lemma TagShape(book: nat, chapter: nat, verse: nat)
    requires book < 100 && chapter < 1000 && verse < 1000
    ensures var t := Tag(book, chapter, verse);
      |t| == 11 && t[2] == ':' && t[6] == ':' && t[10] == ' ' &&
      forall i :: 0 <= i < 11 && i != 2 && i != 6 && i != 10 ==> IsDigit(t[i])
  {
    assert Pow10(2) == 100 && Pow10(3) == 1000;
    ZeroPadExact(book, 2);
    ZeroPadExact(chapter, 3);
    ZeroPadExact(verse, 3);
    TagLayout(ZeroPad(book, 2), ZeroPad(chapter, 3), ZeroPad(verse, 3));
  }

  /** The `reference` property: the tag of the next expected verse, or ValueError once locked. */
  function Reference(s: BibleState): (r: Result<string>)
    ensures r.Err? <==> s.locked
    ensures r.Err? ==> r.error == ValueError
  {
    if s.locked then Err(ValueError) else Ok(Tag(s.book, s.chapter, s.verse))
  }

  /** The three fields of a tag sit at 0..2, 3..6 and 7..10. */
  lemma TagFields(b: string, c: string, v: string)
    requires |b| == 2 && |c| == 3 && |v| == 3
    ensures var t := b + ":" + c + ":" + v + " ";
      t[0..2] == b && t[3..6] == c && t[7..10] == v
  {
    var t := b + ":" + c + ":" + v + " ";
    assert forall i :: 0 <= i < 2 ==> t[i] == b[i];
    assert forall i :: 0 <= i < 3 ==> t[3 + i] == c[i];
    assert forall i :: 0 <= i < 3 ==> t[7 + i] == v[i];
  }

  /**
   * While the counters stay below 100, 1000 and 1000, `int()` of the three
   * fields of the tag reads back the book, the chapter and the verse.
   */
  lemma TagReadBack(book: nat, chapter: nat, verse: nat)
    requires book < 100 && chapter < 1000 && verse < 1000
    ensures var t := Tag(book, chapter, verse);
      && |t| == 11
      && StrParse.ParseInt(t[0..2]) == Some(book as int)
      && StrParse.ParseInt(t[3..6]) == Some(chapter as int)
      && StrParse.ParseInt(t[7..10]) == Some(verse as int)
  {
    TagShape(book, chapter, verse);
    TagFields(ZeroPad(book, 2), ZeroPad(chapter, 3), ZeroPad(verse, 3));
    StrParse.ParseZeroPad(book, 2);
    StrParse.ParseZeroPad(chapter, 3);
    StrParse.ParseZeroPad(verse, 3);
  }

  /**
   * The `reference` of an unlocked Bible names its counters: `int()` of the
   * tag's fields gives the book, chapter and verse expected next, so two
   * Bibles at different counters search for different tags.
   */
  lemma ReferenceNamesCounters(s: BibleState, s': BibleState)
    requires !s.locked && s.book < 100 && s.chapter < 1000 && s.verse < 1000
    requires !s'.locked && s'.book < 100 && s'.chapter < 1000 && s'.verse < 1000
    ensures Reference(s).Ok?
    ensures var t := Reference(s).value;
      && StrParse.ParseInt(t[0..2]) == Some(s.book as int)
      && StrParse.ParseInt(t[3..6]) == Some(s.chapter as int)
      && StrParse.ParseInt(t[7..10]) == Some(s.verse as int)
    ensures Reference(s) == Reference(s') <==>
      s.book == s'.book && s.chapter == s'.chapter && s.verse == s'.verse
  {
    TagReadBack(s.book, s.chapter, s.verse);
    TagReadBack(s'.book, s'.chapter, s'.verse);
  }

  /** The `books` property: the frozen book list, or ValueError before the lock. */
  function Books(s: BibleState): (r: Result<seq<Book>>)
    ensures r.Ok? <==> s.locked
    ensures r.Ok? ==> r.value == s.books
    ensures r.Err? ==> r.error == ValueError
  {
    if s.locked then Ok(s.books) else Err(ValueError)
  }

  /** The entries of verse list `verses`, numbered as chapter `c` of book `b`. */
  function VerseEntries(b: nat, c: nat, verses: seq<string>): (r: seq<Entry>)
    ensures |r| == |verses|
    ensures forall i :: 0 <= i < |r| ==> r[i] == Entry(b, c, i + 1, verses[i])
  {
    seq(|verses|, i requires 0 <= i < |verses| => Entry(b, c, i + 1, verses[i]))
  }

  /** The entries of the chapters of book `b`, in order. */
  function ChapterEntries(b: nat, chapters: seq<Chapter>): seq<Entry> {
    if chapters == [] then []
    else ChapterEntries(b, chapters[..|chapters| - 1]) + VerseEntries(b, |chapters|, chapters[|chapters| - 1])
  }

  /** What `Bible.__iter__` yields for a book list: every verse with its 1-based coordinates. */
  function Entries(books: seq<Book>): seq<Entry> {
    if books == [] then []
    else Entries(books[..|books| - 1]) + ChapterEntries(|books|, books[|books| - 1])
  }

  /** `e` names a verse of `books` by its 1-based coordinates and carries that verse's text. */
  ghost predicate Names(books: seq<Book>, e: Entry) {
    && 1 <= e.book <= |books|
    && 1 <= e.chapter <= |books[e.book - 1]|
    && 1 <= e.verse <= |books[e.book - 1][e.chapter - 1]|
    && e.text == books[e.book - 1][e.chapter - 1][e.verse - 1]
  }

  lemma ChapterEntriesSnoc(b: nat, chapters: seq<Chapter>, c: nat)
    requires c < |chapters|
    ensures ChapterEntries(b, chapters[..c + 1]) == ChapterEntries(b, chapters[..c]) + VerseEntries(b, c + 1, chapters[c])
  {
    assert chapters[..c + 1][..c] == chapters[..c];
  }

  lemma EntriesSnoc(books: seq<Book>, b: nat)
    requires b < |books|
    ensures Entries(books[..b + 1]) == Entries(books[..b]) + ChapterEntries(b + 1, books[b])
  {
    assert books[..b + 1][..b] == books[..b];
  }

  /** Coordinate order: book first, then chapter, then verse. */
  predicate Before(x: Entry, y: Entry) {
    || x.book < y.book
    || (x.book == y.book && x.chapter < y.chapter)
    || (x.book == y.book && x.chapter == y.chapter && x.verse < y.verse)
  }

  /** A book yields one entry per verse of its chapters. */
  lemma {:induction false} ChapterEntriesLength(b: nat, chapters: seq<Chapter>)
    ensures |ChapterEntries(b, chapters)| == VerseCount(chapters)
  {
    if chapters != [] {
      ChapterEntriesLength(b, chapters[..|chapters| - 1]);
    }
  }

  /** The entries of a book are exactly its verses, each with its chapter and verse number. */
  lemma {:induction false} ChapterEntriesMembers(b: nat, chapters: seq<Chapter>)
    ensures forall e :: e in ChapterEntries(b, chapters) <==>
      e.book == b && 1 <= e.chapter <= |chapters| &&
      1 <= e.verse <= |chapters[e.chapter - 1]| && e.text == chapters[e.chapter - 1][e.verse - 1]
  {
    if chapters != [] {
      var n := |chapters|;
      var front := chapters[..n - 1];
      ChapterEntriesMembers(b, front);
      var left, right := ChapterEntries(b, front), VerseEntries(b, n, chapters[n - 1]);
      assert ChapterEntries(b, chapters) == left + right;
      forall e: Entry ensures e in left + right <==>
        e.book == b && 1 <= e.chapter <= n &&
        1 <= e.verse <= |chapters[e.chapter - 1]| && e.text == chapters[e.chapter - 1][e.verse - 1]
      {
        if e.book == b && e.chapter == n && 1 <= e.verse <= |chapters[n - 1]| &&
           e.text == chapters[n - 1][e.verse - 1] {
          assert right[e.verse - 1] == e;
        }
      }
    }
  }

  /** The entries of a book come in chapter, then verse order. */
  lemma {:induction false} ChapterEntriesOrdered(b: nat, chapters: seq<Chapter>)
    ensures forall i, j :: 0 <= i < j < |ChapterEntries(b, chapters)| ==>
      Before(ChapterEntries(b, chapters)[i], ChapterEntries(b, chapters)[j])
  {
    if chapters != [] {
      var n := |chapters|;
      var front := chapters[..n - 1];
      ChapterEntriesOrdered(b, front);
      ChapterEntriesMembers(b, front);
      var left, right := ChapterEntries(b, front), VerseEntries(b, n, chapters[n - 1]);
      assert ChapterEntries(b, chapters) == left + right;
      forall i, j | 0 <= i < j < |left + right| ensures Before((left + right)[i], (left + right)[j]) {
        if j < |left| {
        } else if i < |left| {
          assert left[i] in left;
        }
      }
    }
  }

  /**
   * What iteration over a locked Bible yields: exactly one entry per stored
   * verse, every entry names its verse by 1-based coordinates, every verse
   * is named, and the entries come in book, chapter, verse order.
   */
  lemma {:induction false} EntriesProps(books: seq<Book>)
    ensures |Entries(books)| == BookVerseCount(books)
    ensures forall e :: e in Entries(books) <==> Names(books, e)
    ensures forall i, j :: 0 <= i < j < |Entries(books)| ==> Before(Entries(books)[i], Entries(books)[j])
  {
    if books != [] {
      var n := |books|;
      var front := books[..n - 1];
      EntriesProps(front);
      ChapterEntriesLength(n, books[n - 1]);
      ChapterEntriesMembers(n, books[n - 1]);
      ChapterEntriesOrdered(n, books[n - 1]);
      var left, right := Entries(front), ChapterEntries(n, books[n - 1]);
      assert Entries(books) == left + right;
      forall e: Entry ensures e in left + right <==> Names(books, e) {
        if e in left {
          assert Names(front, e);
        }
      }
      forall i, j | 0 <= i < j < |left + right| ensures Before((left + right)[i], (left + right)[j]) {
        if j < |left| {
        } else if i < |left| {
          assert left[i] in left;
          assert right[j - |left|] in right;
        }
      }
    }
  }

  /** Once locked, `len()` is the number of entries iteration yields. */
  lemma LockedSize(s: BibleState)
    requires Inv(s) && s.locked
    ensures |Entries(s.books)| == s.size
    ensures |s.books| >= 1
  {
    EntriesProps(s.books);
  }

  /** How close the accumulator is to locking: what `NEXT` lowers. */
  function Phase(s: BibleState): nat {
    if s.locked then 0 else if s.verse != 1 then 3 else if s.chapter != 1 then 2 else 1
  }

  /** What one search of the scan finds: text to feed and where to go on, or a truncated verse. */
  datatype Round = Feed(event: Event, at: nat) | Truncated

  /**
   * The search of one round of `read_until_locked` for the Bible at
   * `book`, `chapter`, `verse`, from `start`: on finding the tag, the bytes
   * between the end of the tag and the next terminator, to be fed as verse
   * text, and the terminator to go on from (a truncated verse when there
   * is none); on a miss, `NEXT`, and the same place to search again.  A
   * round moves the cursor forward or feeds `NEXT`.
   */
  function ScanRound(data: seq<Byte>, eov: seq<Byte>, book: nat, chapter: nat, verse: nat, start: nat): (r: Round)
    requires start <= |data|
    ensures r.Feed? ==> start <= r.at <= |data|
    ensures r.Feed? ==> r.at > start || (r.at == start && r.event == Next)
  {
    TagBytesLength(book, chapter, verse);
    RoundAt(data, eov, Encode(Tag(book, chapter, verse)), start)
  }

  /** The search of one round for the encoded tag `tag`. */
  function RoundAt(data: seq<Byte>, eov: seq<Byte>, tag: seq<Byte>, start: nat): (r: Round)
    requires start <= |data| && |tag| > 0
    ensures r.Feed? ==> start <= r.at <= |data|
    ensures r.Feed? ==> r.at > start || (r.at == start && r.event == Next)
  {
    var index := Find(data, tag, start);
    if index >= 0 then
      var textStart := index + |tag|;
      var end := Find(data, eov, textStart);
      if end < 0 then Truncated
      else Feed(Verse(Decode(data[textStart..end])), end)
    else Feed(Next, start)
  }

  /** The encoded tag is at least eleven bytes long. */
  lemma TagBytesLength(book: nat, chapter: nat, verse: nat)
    ensures |Encode(Tag(book, chapter, verse))| >= 11
  {
  }

  /** Feeding `NEXT` successfully brings the Bible closer to locking. */
  lemma NextPhase(s: BibleState)
    requires Step(s, Next).Ok?
    ensures Phase(Step(s, Next).value) < Phase(s)
  {
  }

  /**
   * `read_until_locked` as a function: rounds from `start`, each feeding
   * what its search finds, until the Bible locks or a round fails; returns
   * the state reached and the outcome.
   */
  function Scan(data: seq<Byte>, eov: seq<Byte>, s: BibleState, start: nat): (BibleState, Outcome)
    requires start <= |data|
    decreases |data| - start, Phase(s)
  {
    if s.locked then (s, Pass)
    else match ScanRound(data, eov, s.book, s.chapter, s.verse, start)
      case Truncated => (s, Fail(EOFError))
      case Feed(e, at) =>
        match Step(s, e)
        case Err(error) => (s, Fail(error))
        case Ok(t) =>
          if at == start then NextPhase(s); Scan(data, eov, t, at)
          else Scan(data, eov, t, at)
  }

  /**
   * A scan that succeeds leaves the Bible locked; whatever it ends with
   * satisfies the invariant, so a finished Bible holds every verse it read
   * in its book list.
   */
  lemma {:induction false} ScanKeepsInv(data: seq<Byte>, eov: seq<Byte>, s: BibleState, start: nat)
    requires start <= |data| && Inv(s)
    ensures Inv(Scan(data, eov, s, start).0)
    ensures Scan(data, eov, s, start).1 == Pass ==> Scan(data, eov, s, start).0.locked
    ensures Scan(data, eov, s, start).1 != Pass ==> Scan(data, eov, s, start).1 == Fail(EOFError)
    decreases |data| - start, Phase(s)
  {
    if !s.locked {
      var r := ScanRound(data, eov, s.book, s.chapter, s.verse, start);
      if r.Feed? {
        StepKeepsInv(s, r.event);
        StepEffects(s, r.event);
        if Step(s, r.event).Ok? {
          if r.at == start {
            NextPhase(s);
          }
          ScanKeepsInv(data, eov, Step(s, r.event).value, r.at);
        }
      }
    }
  }

  /** A document without the tag of the first verse is judged empty: EOFError, nothing stored. */
  lemma EmptyDocument(data: seq<Byte>, eov: seq<Byte>)
    requires !Contains(data, Encode(Tag(1, 1, 1)))
    ensures Scan(data, eov, Initial, 0) == (Initial, Fail(EOFError))
  {
    FindFromStart(data, Encode(Tag(1, 1, 1)));
  }

  /**
   * When the tag of the next expected verse is found but no terminator
   * follows it, the verse is truncated: EOFError, with nothing stored.
   */
  lemma TruncatedVerse(data: seq<Byte>, eov: seq<Byte>, s: BibleState, start: nat)
    requires start <= |data| && !s.locked
    requires TagWithoutEnd(data, eov, Encode(Tag(s.book, s.chapter, s.verse)), start)
    ensures Scan(data, eov, s, start) == (s, Fail(EOFError))
  {
    TagBytesLength(s.book, s.chapter, s.verse);
    RoundTruncated(data, eov, Encode(Tag(s.book, s.chapter, s.verse)), start);
  }

  /** `tag` occurs at or after `start`, and no terminator follows its first occurrence. */
  predicate TagWithoutEnd(data: seq<Byte>, eov: seq<Byte>, tag: seq<Byte>, start: nat) {
    var index := Find(data, tag, start);
    index >= 0 && Find(data, eov, index + |tag|) < 0
  }

  /** The round of a tag with no terminator after it is a truncated verse. */
  lemma RoundTruncated(data: seq<Byte>, eov: seq<Byte>, tag: seq<Byte>, start: nat)
    requires start <= |data| && |tag| > 0
    requires TagWithoutEnd(data, eov, tag, start)
    ensures RoundAt(data, eov, tag, start) == Truncated
  {
  }


  /** The parsing class `Bible`. */
  class Bible {
    var book: nat
    var chapter: nat
    var verse: nat
    var bookList: seq<Book>
    var chapterList: seq<Chapter>
    var verseList: seq<string>
    var lock: bool
    var size: nat

    function State(): BibleState
      reads this
    {
      BibleState(book, chapter, verse, bookList, chapterList, verseList, lock, size)
    }

    ghost predicate Valid()
      reads this
    {
      Inv(State())
    }

    /** `Bible.__init__`: book, chapter and verse 1, nothing stored, unlocked. */
    constructor ()
      ensures State() == Initial && Valid()
    {
      book, chapter, verse := 1, 1, 1;
      bookList, chapterList, verseList := [], [], [];
      lock := false;
      size := 0;
    }

    /** `+=` with verse text or `NEXT`: the new state is `Step` of the old one. */
    method Add(e: Event) returns (outcome: Outcome)
      requires Valid()
      modifies this
      ensures Valid()
      ensures Step(old(State()), e).Ok? ==> outcome == Pass && State() == Step(old(State()), e).value
      ensures Step(old(State()), e).Err? ==> outcome == Fail(Step(old(State()), e).error) && State() == old(State())
    {
      StepKeepsInv(State(), e);
      if lock {
        return Fail(ArithmeticError);
      }
      if e.Next? {
        outcome := ReferenceNotFound();
      } else {
        AddVerseText(e.text);
        outcome := Pass;
      }
    }

    /** `__reference_not_found`: promote the accumulation one level, or fail when empty. */
    method ReferenceNotFound() returns (outcome: Outcome)
      requires !lock
      modifies this
      ensures Step(old(State()), Next).Ok? ==> outcome == Pass && State() == Step(old(State()), Next).value
      ensures Step(old(State()), Next).Err? ==> outcome == Fail(EOFError) && State() == old(State())
    {
      if verse != 1 {
        chapterList := chapterList + [verseList];
        verseList := [];
        chapter := chapter + 1;
        verse := 1;
      } else if chapter != 1 {
        bookList := bookList + [chapterList];
        chapterList := [];
        book := book + 1;
        chapter := 1;
      } else if book != 1 {
        lock := true;
      } else {
        return Fail(EOFError);
      }
      outcome := Pass;
    }

    /** `__add_verse_text`: store the cleaned text and count it. */
    method AddVerseText(value: string)
      requires !lock
      modifies this
      ensures State() == Step(old(State()), Verse(value)).value
    {
      verseList := verseList + [Clean(value)];
      verse := verse + 1;
      size := size + 1;
    }

    /** `len()`: the number of verses added so far. */
    function Length(): (n: nat)
      reads this
      requires Valid()
      ensures n == BookVerseCount(bookList) + VerseCount(chapterList) + |verseList|
    {
      size
    }

    /** `bool()`: whether any verse has been added. */
    predicate NonEmpty()
      reads this
      requires Valid()
      ensures NonEmpty() <==> BookVerseCount(bookList) + VerseCount(chapterList) + |verseList| > 0
    {
      size > 0
    }

    /** `>` between two Bibles: this one holds more verses than the other. */
    predicate Greater(other: Bible)
      reads this, other
      requires Valid() && other.Valid()
      ensures Greater(other) <==> Length() > other.Length()
    {
      size > other.size
    }

    /** `<` between two Bibles: this one holds fewer verses than the other. */
    predicate Less(other: Bible)
      reads this, other
      requires Valid() && other.Valid()
      ensures Less(other) <==> Length() < other.Length()
    {
      size < other.size
    }

    /**
     * `__iter__`: RuntimeError before the lock; afterwards every stored
     * verse with its 1-based coordinates, book by book, chapter by chapter.
     */
    method Iterate() returns (r: Result<seq<Entry>>)
      requires Valid()
      ensures !lock ==> r == Err(RuntimeError)
      ensures lock ==> r == Ok(Entries(bookList))
    {
      if !lock {
        return Err(RuntimeError);
      }
      var out: seq<Entry> := [];
      var b := 0;
      while b < |bookList|
        invariant 0 <= b <= |bookList|
        invariant out == Entries(bookList[..b])
      {
        var chapters := bookList[b];
        var bookOut: seq<Entry> := [];
        var c := 0;
        while c < |chapters|
          invariant 0 <= c <= |chapters|
          invariant bookOut == ChapterEntries(b + 1, chapters[..c])
        {
          var verses := chapters[c];
          var chapterOut: seq<Entry> := [];
          var v := 0;
          while v < |verses|
            invariant 0 <= v <= |verses|
            invariant chapterOut == VerseEntries(b + 1, c + 1, verses[..v])
          {
            chapterOut := chapterOut + [Entry(b + 1, c + 1, v + 1, verses[v])];
            v := v + 1;
          }
          assert verses[..v] == verses;
          ChapterEntriesSnoc(b + 1, chapters, c);
          bookOut := bookOut + chapterOut;
          c := c + 1;
        }
        assert chapters[..c] == chapters;
        EntriesSnoc(bookList, b);
        out := out + bookOut;
        b := b + 1;
      }
      assert bookList[..b] == bookList;
      return Ok(out);
    }
  }

  /**
   * `>` and `<` order Bibles by the number of verses they hold: of two
   * Bibles, exactly one is greater, or exactly one is less, or neither
   * when they hold as many verses; `a > b` is `b < a`.
   */
  lemma CompareBySize(a: Bible, b: Bible)
    requires a.Valid() && b.Valid()
    ensures a.Greater(b) <==> b.Less(a)
    ensures a.Greater(b) ==> !a.Less(b) && !b.Greater(a)
    ensures !a.Greater(b) && !a.Less(b) <==>
      BookVerseCount(a.bookList) + VerseCount(a.chapterList) + |a.verseList| ==
      BookVerseCount(b.bookList) + VerseCount(b.chapterList) + |b.verseList|
  {
  }

  /**
   * One round of the `read_until_locked` loop on an unlocked Bible: look
   * for the tag of the next expected verse from `start`; on a hit feed the
   * verse text and move to its terminator, on a miss feed `NEXT`.  Either
   * the round fails, and the scan ends where it stands, or the rest of the
   * scan from the new position is the rest of the scan from the old one.
   */
  method ReadOnce(data: seq<Byte>, eov: seq<Byte>, bible: Bible, start: nat) returns (next: nat, outcome: Outcome)
    requires bible.Valid() && !bible.lock && start <= |data|
    modifies bible
    ensures bible.Valid()
    ensures var r := ScanRound(data, eov, old(bible.book), old(bible.chapter), old(bible.verse), start);
      && (r.Truncated? ==> outcome == Fail(EOFError) && bible.State() == old(bible.State()))
      && (r.Feed? ==> next == r.at)
      && (r.Feed? && Step(old(bible.State()), r.event).Ok? ==>
            outcome == Pass && bible.State() == Step(old(bible.State()), r.event).value)
      && (r.Feed? && Step(old(bible.State()), r.event).Err? ==>
            outcome == Fail(Step(old(bible.State()), r.event).error) && bible.State() == old(bible.State()))
  {
    match ScanRound(data, eov, bible.book, bible.chapter, bible.verse, start)
    case Truncated =>
      return start, Fail(EOFError);
    case Feed(event, at) =>
      outcome := bible.Add(event);
      return at, outcome;
  }

  /**
   * `read_until_locked`: drive the scan over the whole file, feeding the
   * Bible until it locks.  The Bible ends in the state `Scan` computes and
   * the outcome is `Scan`'s.
   */
  method ReadUntilLocked(data: seq<Byte>, eov: seq<Byte>, bible: Bible) returns (outcome: Outcome)
    requires bible.Valid()
    modifies bible
    ensures bible.Valid()
    ensures (bible.State(), outcome) == Scan(data, eov, old(bible.State()), 0)
  {
    var start := 0;
    while !bible.lock
      invariant bible.Valid() && start <= |data|
      invariant Scan(data, eov, bible.State(), start) == Scan(data, eov, old(bible.State()), 0)
      decreases |data| - start, Phase(bible.State())
    {
      ghost var before, from := bible.State(), start;
      start, outcome := ReadOnce(data, eov, bible, start);
      if outcome.Fail? {
        return;
      }
      if start == from {
        NextPhase(before);
      }
    }
    return Pass;
  }

  /**
   * `parse_bible`: sniff the line delimiter, then scan with the delimiter
   * doubled as the verse terminator, starting from a new Bible.
   */
  method ParseBible(data: seq<Byte>) returns (r: Result<Bible>)
    ensures r.Err? ==> r.error == EOFError
    ensures r.Ok? ==> r.value.Valid() && r.value.lock
    ensures SniffNextLine(data).Err? ==> r.Err?
    ensures SniffNextLine(data).Ok? ==>
      var nl := SniffNextLine(data).value;
      (r.Ok? <==> Scan(data, nl + nl, Initial, 0).1 == Pass) &&
      (r.Ok? ==> r.value.State() == Scan(data, nl + nl, Initial, 0).0)
  {
    var sniffed := SniffNextLine(data);
    if sniffed.Err? {
      return Err(sniffed.error);
    }
    var nextLine := sniffed.value;
    var theBible := new Bible();
    var outcome := ReadUntilLocked(data, nextLine + nextLine, theBible);
    ScanKeepsInv(data, nextLine + nextLine, Initial, 0);
    if outcome.Fail? {
      return Err(outcome.error);
    }
    return Ok(theBible);
  }
}
