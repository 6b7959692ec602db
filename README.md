# cs331 labs in Dafny

A model of the Python lab exercises of the cs331 course repository, with
proofs of what each exercise promises:

- **lab 2**: the simple scripts and simple functions.
  - Largest of two or three values, length, sum, product and string reversal.
  - Vowel and membership tests, list overlap and the robber's-language translation.
- **lab 3**: the intermediate functions.
  - Repeated characters, the largest number and the longest word.
  - Long-word filtering, the pangram test, the bottles song and character frequencies.
- **lab 4**: word-by-word English→Swedish translation through a lexicon, and ROT-13 through a code-point table.
- **lab 5**: the ICAO spelling alphabet built from `letter-word` lines, and the word-to-ICAO conversion.
- **lab 6**:
  - The hapax-legomenon word counter, with its unique, hapax and "the" counts.
  - The line palindrome test.
- **lab 7**: the Bible parser and reference reader.
  - Line-delimiter sniffing, and the verse scanner that feeds the `Bible` accumulator until it locks.
  - The `Bible` class: its reference tags, iteration, size and comparisons.
  - The `TableOfContents` class with its `PD` pivot-description key generator, the book-name reader, and the reference dialogue.
- **lab 9** (`modules.py`):
  - The binary tree: creation, inversion, listing, iteration, path lookup and breadth-first search.
  - The heap queues: `HeapQueue`, `AdvHeapQueue`, and `RevHeapQueue` with its `_Reverse` wrapper.

Each source file is one Dafny module. Shared modules:

- `Wrappers`: `Option`, `Result`, and the Python exception classes as `PyError`.
- `Sequences`: reversal.
- `Text`: Python whitespace, `str.split`, `' '.join` and decimal formatting.
- `Latin1`: `str.isalpha` and `str.casefold` over Latin-1.
- `Counting`: occurrence counts and the counting dictionary.
- `StrParse`: `rsplit`, `split(':')` and `int()`.

How the code is modelled:

- Code that loops or mutates is a `method`, proved against a function that specifies it.
- The classes `Bible`, `TableOfContents`, `BinaryTreeNode` and `HeapQueue` are Dafny classes with their fields.
- A Python exception is an `Err` or `Fail` result naming the exception class.
- A generator is modelled as the list it yields when drained.
- Files and memory maps are byte sequences, and the lines a user types are a sequence of strings.

## Model

| member | source | states |
|---|---|---|
| Sequences.Reverse | lab2/2_simple_functions.py:81-86 | the reversal has the same length, and position `i` holds position `len - 1 - i` of the input |
| Sequences.ReverseTwice | lab2/2_simple_functions.py:81-86 | reversing twice gives the text back |
| Sequences.ReverseConcat | lab2/1_simple_scripts.py:71-76 | reversing `a + b` gives reversed `b` followed by reversed `a` |
| SimpleFunctions.Max | lab2/2_simple_functions.py:41-44 | `max_` is at least both arguments and is one of them |
| SimpleFunctions.MaxOfThree | lab2/2_simple_functions.py:47-54 | `max_of_three` is at least all three arguments and is one of them |
| SimpleFunctions.Len | lab2/2_simple_functions.py:57-62 | the counting loop returns the length |
| SimpleFunctions.SumOf | lab2/2_simple_functions.py:65-70 | the loop returns the sum of the values |
| SimpleFunctions.SumConcat | lab2/2_simple_functions.py:65-70 | the sum of `a + b` is the sum of `a` plus the sum of `b` |
| SimpleFunctions.Multiply | lab2/2_simple_functions.py:73-78 | the loop returns the product of the values (1 for none) |
| SimpleFunctions.ProductConcat | lab2/2_simple_functions.py:73-78 | the product of `a + b` is the product of `a` times the product of `b` |
| SimpleFunctions.ProductZero | lab2/2_simple_functions.py:73-78 | a list holding 0 multiplies to 0 |
| SimpleFunctions.Reversed | lab2/2_simple_functions.py:81-86 | the loop over `range(1, len + 1)` builds the reversal |
| SimpleFunctions.IsVowel | lab2/2_simple_functions.py:89-94 | true iff the argument is a single character among the vowels |
| SimpleFunctions.IsMember | lab2/2_simple_functions.py:97-104 | the `for`/`break`/`else` loop returns true iff the item is in the list |
| SimpleFunctions.Overlapping | lab2/2_simple_functions.py:107-113 | true iff some item of the first list equals some item of the second |
| SimpleFunctions.Robber | lab2/2_simple_functions.py:116-123 | the robber's language adds two characters per consonant |
| SimpleFunctions.RobberConcat | lab2/2_simple_functions.py:116-123 | translation works character by character over a concatenation |
| SimpleFunctions.RobberRoundTrip | lab2/2_simple_functions.py:116-123 | dropping the `o` and the doubled consonant after each consonant gives the text back |
| SimpleFunctions.Translate | lab2/2_simple_functions.py:116-123 | the loop builds the robber's-language text |
| SimpleScripts.Function1 | lab2/1_simple_scripts.py:33-38 | the result is at least both arguments and is one of them |
| SimpleScripts.Function2 | lab2/1_simple_scripts.py:41-47 | as written: `None` iff `a` is at least `b` and `c`; otherwise the first of `b`, `c` that exceeds `a` |
| SimpleScripts.Function2Misses | lab2/1_simple_scripts.py:41-47 | `(3, 2, 1)` gives `None`, and `(1, 2, 3)` gives 2 where the largest is 3 |
| SimpleScripts.LargestOfThree | lab2/1_simple_scripts.py:41-47 | the corrected function is at least all three arguments and is one of them |
| SimpleScripts.Function3 | lab2/1_simple_scripts.py:50-55 | the counting loop returns the length of the name |
| SimpleScripts.SumToN | lab2/1_simple_scripts.py:58-60 | twice `sum(range(1, n + 1))` is `n * (n + 1)` |
| SimpleScripts.Function5 | lab2/1_simple_scripts.py:63-68 | the loop returns the product of the list |
| SimpleScripts.ProductToN | lab2/1_simple_scripts.py:63-68 | the product of `range(1, n + 1)` is `n!` |
| SimpleScripts.Function6 | lab2/1_simple_scripts.py:71-76 | the loop builds the reversal of the text |
| IntermediateFunctions.GenerateNChars | lab3/3_intermediate_functions.py:36-45 | ValueError iff the character is not of length 1; otherwise `max(number, 0)` copies of it |
| IntermediateFunctions.Largest | lab3/3_intermediate_functions.py:56-60 | the largest value is in the list and no element exceeds it |
| IntermediateFunctions.MaxInList | lab3/3_intermediate_functions.py:48-60 | ValueError iff the list is empty; otherwise an element that no element exceeds |
| IntermediateFunctions.FindLongestWord | lab3/3_intermediate_functions.py:63-65 | ValueError iff there are no words; otherwise the length of some word, and no word is longer |
| IntermediateFunctions.LongWordsExact | lab3/3_intermediate_functions.py:68-74 | a word is kept iff it is in the list and longer than `number` |
| IntermediateFunctions.LongWordsConcat | lab3/3_intermediate_functions.py:68-74 | filtering works element by element, keeping order |
| IntermediateFunctions.LongWordsTwice | lab3/3_intermediate_functions.py:68-74 | filtering twice is filtering once |
| IntermediateFunctions.FilterLongWords | lab3/3_intermediate_functions.py:68-74 | the index loop returns the long words in order |
| IntermediateFunctions.IsPangram | lab3/3_intermediate_functions.py:77-79 | true iff every letter a–z occurs in the sentence in either case |
| IntermediateFunctions.QuickBrownFox | lab3/3_intermediate_functions.py:77-79 | the quick-brown-fox sentence is a pangram |
| IntermediateFunctions.Countdown | lab3/3_intermediate_functions.py:82 | `range(n, 0, -1)` holds `n` numbers counting down from `n` |
| IntermediateFunctions.VersesAt | lab3/3_intermediate_functions.py:84-89 | each count yields its first line and then its second line |
| IntermediateFunctions.SongVerse | lab3/3_intermediate_functions.py:82-89 | the song has two lines per count, and those lines are the first and second lines for that count |
| IntermediateFunctions.SecondLineAsWritten | lab3/3_intermediate_functions.py:88-89 | the second line announces the next count correctly iff the count is at least 2 |
| IntermediateFunctions.SecondLineIntended | lab3/3_intermediate_functions.py:88-89 | the corrected second line equals the line as written iff the count is at least 2; below 2 it is the written line with the plural `s` added |
| IntermediateFunctions.IntendedAnnouncesNext | lab3/3_intermediate_functions.py:85-89 | the corrected second line ends with the words the next verse's first line starts with |
| IntermediateFunctions.CharFreq | lab3/3_intermediate_functions.py:92-100 | the loop returns the counting dictionary of the characters |
| Counting.Count | lab3/3_intermediate_functions.py:92-100 | an occurrence count is at most the length, and positive iff the element occurs |
| Counting.TallyCounts | lab3/3_intermediate_functions.py:92-100 | the dictionary's keys are exactly the elements, each mapped to its number of occurrences |
| Counting.TallySnoc | lab3/3_intermediate_functions.py:95-99 | one more element bumps its count, or adds it with count 1 |
| Counting.TallyTotal | lab6_text_processing_functions/hapax_legomenon.py:66-75 | the counts add up to the number of elements |
| DictScripts.Rot13KeyIsRotation | lab4/4_scripts_w_dicts.py:34-42 | the table holds exactly the 52 ASCII letters, and sends each 13 places on in its own alphabet |
| DictScripts.Rot13Char | lab4/4_scripts_w_dicts.py:63-65 | a letter is rotated; any other character is left alone |
| DictScripts.Rot13KeepsCase | lab4/4_scripts_w_dicts.py:63-65 | upper case stays upper, lower case stays lower, and non-letters are unchanged |
| DictScripts.Rot13CharTwice | lab4/4_scripts_w_dicts.py:34-42 | rotating a character twice gives it back |
| DictScripts.Rot13Involution | lab4/4_scripts_w_dicts.py:63-65 | the same call encodes and decodes |
| DictScripts.TranslateWords | lab4/4_scripts_w_dicts.py:58-59 | one lexicon lookup per word, in order, with unknown words kept |
| DictScripts.Translate | lab4/4_scripts_w_dicts.py:56-60 | draining the generator raises UnboundLocalError iff there are no words; otherwise it yields the translations |
| DictScripts.TranslateConcat | lab4/4_scripts_w_dicts.py:58-59 | translating two runs of words translates each run |
| DictScripts.TranslateUnknown | lab4/4_scripts_w_dicts.py:59 | words that are not keys pass through unchanged |
| DictScripts.TranslateIsExact | lab4/4_scripts_w_dicts.py:25-32 | lookup is exact: `Merry` and `christmas!` are not translated |
| Latin1.Fold | lab5/5_icao.py:64 | casefolding a character leaves no capital and keeps whether it is alphabetic (ß → ss) |
| Latin1.CasefoldConcat | lab5/5_icao.py:64 | casefolding works character by character over a concatenation |
| Latin1.CasefoldTwice | lab6_text_processing_functions/hapax_legomenon.py:70 | casefolding is idempotent |
| Latin1.AsciiCasefold | lab7/4-exercies-two-edged-sword.py:242-243 | on ASCII text `str.casefold` is the ASCII lowering the book-name match and the pangram test use |
| Icao.SplitLine | lab5/5_icao.py:19 | `split('-', 1)` unpacked in two: ValueError iff there is no dash; otherwise a dash-free key, then a dash, then the value, make up the line |
| Icao.SplitLineAtFirstDash | lab5/5_icao.py:19 | a line splits at its first dash, so a value may hold dashes |
| Icao.DictOf | lab5/5_icao.py:19 | building the dictionary fails iff some line has no dash |
| Icao.DictOfLetterLines | lab5/5_icao.py:19-45 | lines of distinct letters each with a dash and a word build the dictionary from each letter to its word |
| Icao.IcaoAlphabetEntries | lab5/5_icao.py:19-45 | the alphabet's keys are exactly the 26 single letters a–z, each mapped to its word |
| Icao.IcaoAsWritten | lab5/5_icao.py:36-43 | the table as written maps x to `x-ray` and q to `quebe` |
| Icao.Spell | lab5/5_icao.py:64-65 | KeyError iff some alphabetic character is not a key |
| Icao.SpellEach | lab5/5_icao.py:64-65 | otherwise one table word per alphabetic character, in order |
| Icao.CaseDoesNotMatter | lab5/5_icao.py:64 | converting the casefolded word gives the same result as converting the word |
| Icao.ConvertIcaoFails | lab5/5_icao.py:58-66 | conversion fails, with KeyError, iff the casefolded word has an alphabetic character outside a–z |
| Icao.ConvertIcaoSpells | lab5/5_icao.py:58-66 | otherwise the result is the ICAO word of each letter of the casefolded word, in order |
| Icao.AsciiSpells | lab5/5_icao.py:58-66 | an ASCII word never fails and gets one word per letter |
| Icao.AccentIsKeyError | lab5/5_icao.py:64-65 | an accented letter (`CafÉ`) raises KeyError |
| Hapax.Tokens | lab6_text_processing_functions/hapax_legomenon.py:69-70 | every token of the casefolded, split lines is a word without whitespace |
| Hapax.Counter | lab6_text_processing_functions/hapax_legomenon.py:66-75 | `counter` returns the counting dictionary of the tokens |
| Hapax.CountWords | lab6_text_processing_functions/hapax_legomenon.py:70-74 | the inner loop adds the words of one line to the counts |
| Hapax.TokensIgnoreCase | lab6_text_processing_functions/hapax_legomenon.py:70 | casefolding the lines first changes no token |
| Hapax.KeepsPunctuation | lab6_text_processing_functions/hapax_legomenon.py:70 | punctuation is not stripped: casefolded words joined by spaces come back as the tokens unchanged |
| Hapax.UniqueWords | lab6_text_processing_functions/hapax_legomenon.py:52 | the number of keys is the number of distinct tokens |
| Hapax.CountHapaxes | lab6_text_processing_functions/hapax_legomenon.py:54-57 | the loop counts the keys whose count is 1 |
| Hapax.HapaxesOfTokens | lab6_text_processing_functions/hapax_legomenon.py:54-57 | the hapax count is the number of tokens that occur exactly once |
| Hapax.CountTheAsWritten | lab6_text_processing_functions/hapax_legomenon.py:59-60 | as written: UnboundLocalError iff there are no words; otherwise the number of keys minus 1 |
| Hapax.CountTheIsOccurrences | lab6_text_processing_functions/hapax_legomenon.py:59-63 | the corrected count is the number of occurrences of `the` |
| Hapax.CountTheDiffers | lab6_text_processing_functions/hapax_legomenon.py:59-60 | for `the the cat` the loop reports 1 where `the` occurs twice |
| Palindrome.GrownStep | lab6_text_processing_functions/palindrome.py:48-49 | each pass appends the casefolded character to the line |
| Palindrome.IsPalindrome | lab6_text_processing_functions/palindrome.py:46-52 | the result is `True` or `None`, and `True` iff at some pass the grown line is its own reverse and the character is punctuation |
| Palindrome.RacecarNotRecognised | lab6_text_processing_functions/palindrome.py:46-52 | `racecar` never satisfies the test |
| Palindrome.Strip | lab6_text_processing_functions/palindrome.py:24 | removing punctuation leaves no punctuation |
| Palindrome.CleanedReverse | lab6_text_processing_functions/palindrome.py:47 | cleaning and reversing commute |
| Palindrome.IntendedSymmetric | lab6_text_processing_functions/palindrome.py:47 | the corrected test holds for a line iff it holds for the reversed line |
| Palindrome.IntendedMirror | lab6_text_processing_functions/palindrome.py:47 | a line followed by its reverse passes the corrected test |
| Palindrome.RacecarIntended | lab6_text_processing_functions/palindrome.py:47 | `racecar` passes the corrected test |
| Text.Split | lab6_text_processing_functions/hapax_legomenon.py:70 | every piece of `str.split()` is a nonempty run without whitespace |
| Text.SplitJoin | lab7/4-exercies-two-edged-sword.py:256-258 | splitting words joined by single spaces gives the words back |
| Text.JoinNormal | lab7/4-exercies-two-edged-sword.py:256-258 | words joined by single spaces form normalized text |
| Text.CasefoldLower | lab3/3_intermediate_functions.py:79 | lowered text holds no ASCII capital, only capitals change, and lowering twice is lowering once |
| Text.ZeroPadExact | lab7/4-exercies-two-edged-sword.py:368 | formatting with `:0k` gives exactly `k` digits for a number below `10 ** k` |
| BibleText.DecodeEncode | lab7/4-exercies-two-edged-sword.py:118-126 | decoding an encoded Latin-1 string gives it back |
| BibleText.EncodeDecode | lab7/4-exercies-two-edged-sword.py:118-126 | encoding decoded bytes gives them back |
| BibleText.Find | lab7/4-exercies-two-edged-sword.py:119 | `find(sub, start)` gives the first occurrence at or after `start`, or -1 iff there is none |
| BibleText.FindFromStart | lab7/4-exercies-two-edged-sword.py:109 | `find(x) >= 0` iff the bytes contain `x` |
| BibleText.SniffNextLine | lab7/4-exercies-two-edged-sword.py:106-111 | CRLF iff it occurs, else CR iff it occurs, else LF iff it occurs; EOFError iff neither CR nor LF occurs |
| BibleText.CleanNormalizes | lab7/4-exercies-two-edged-sword.py:256-258 | `clean` gives normalized text with the same words; it is idempotent and empty iff there are no words |
| BibleParser.InitialInv | lab7/4-exercies-two-edged-sword.py:277-282 | a new Bible satisfies the accumulator invariant |
| BibleParser.StepKeepsInv | lab7/4-exercies-two-edged-sword.py:300-335 | every successful `+=` keeps the invariant |
| BibleParser.StepEffects | lab7/4-exercies-two-edged-sword.py:300-335 | See note 1 below the table |
| BibleParser.TagShape | lab7/4-exercies-two-edged-sword.py:368 | the reference tag is `BB:CCC:VVV ` (11 characters, digits around the two colons, a final space) |
| BibleParser.Reference | lab7/4-exercies-two-edged-sword.py:365-369 | the reference tag is available iff the Bible is not locked; otherwise ValueError |
| BibleParser.TagReadBack | lab7/4-exercies-two-edged-sword.py:365-368 | below 100 books and 1000 chapters and verses, `int()` of the tag's three fields gives back the book, chapter and verse |
| BibleParser.ReferenceNamesCounters | lab7/4-exercies-two-edged-sword.py:365-368 | the reference of an unlocked Bible reads back as its counters, and two Bibles search for the same tag iff their counters agree |
| BibleParser.Books | lab7/4-exercies-two-edged-sword.py:371-376 | the books are available iff the Bible is locked; otherwise ValueError |
| BibleParser.EntriesProps | lab7/4-exercies-two-edged-sword.py:383-390 | iteration yields one entry per stored verse, naming its book, chapter, verse (from 1) and text, in strictly increasing order |
| BibleParser.LockedSize | lab7/4-exercies-two-edged-sword.py:353-355 | a locked Bible holds at least one book, and its size is the number of entries iteration yields |
| BibleParser.ScanKeepsInv | lab7/4-exercies-two-edged-sword.py:114-129 | reading keeps the invariant; success leaves the Bible locked, and the only failure is EOFError |
| BibleParser.EmptyDocument | lab7/4-exercies-two-edged-sword.py:325-329 | text without the first verse tag raises EOFError on the empty Bible |
| BibleParser.TruncatedVerse | lab7/4-exercies-two-edged-sword.py:122-124 | when the tag of the expected verse is found and no end of verse follows it, the scan ends with EOFError and leaves the Bible unchanged, whatever came before |
| BibleParser.Bible.constructor | lab7/4-exercies-two-edged-sword.py:277-282 | the fields start at book, chapter and verse 1, with no verses, unlocked |
| BibleParser.Bible.Add | lab7/4-exercies-two-edged-sword.py:300-310 | `+=` moves to the accumulator's next state, or fails with its error and changes nothing |
| BibleParser.Bible.ReferenceNotFound | lab7/4-exercies-two-edged-sword.py:312-329 | closes the verse, chapter or book, or locks, or raises EOFError on an empty Bible |
| BibleParser.Bible.AddVerseText | lab7/4-exercies-two-edged-sword.py:331-335 | stores the cleaned text and advances verse and size |
| BibleParser.Bible.Length | lab7/4-exercies-two-edged-sword.py:353-355 | `len` is the number of verses stored so far |
| BibleParser.Bible.NonEmpty | lab7/4-exercies-two-edged-sword.py:349-351 | `bool` is true iff some verse is stored |
| BibleParser.Bible.Greater | lab7/4-exercies-two-edged-sword.py:337-341 | `a > b` iff `a` holds more verses than `b` |
| BibleParser.Bible.Less | lab7/4-exercies-two-edged-sword.py:343-347 | `a < b` iff `a` holds fewer verses than `b` |
| BibleParser.CompareBySize | lab7/4-exercies-two-edged-sword.py:337-347 | `a > b` iff `b < a`; at most one of `a > b` and `a < b` holds, and neither iff both hold as many verses |
| BibleParser.Bible.Iterate | lab7/4-exercies-two-edged-sword.py:383-390 | RuntimeError unless locked; otherwise exactly the entries of the books |
| BibleParser.ReadOnce | lab7/4-exercies-two-edged-sword.py:117-129 | one pass of the loop: EOFError on a truncated verse, otherwise the Bible takes its next step |
| BibleParser.ReadUntilLocked | lab7/4-exercies-two-edged-sword.py:114-129 | the loop's final Bible and outcome are those of the whole scan |
| BibleParser.ParseBible | lab7/4-exercies-two-edged-sword.py:96-103 | See note 2 below the table |
| BookNames.PivotKeysRange | lab7/4-exercies-two-edged-sword.py:422-429 | the keys of one `PD` are exactly `start .. start + rows * columns - 1` |
| BookNames.StandardKeys | lab7/4-exercies-two-edged-sword.py:190 | `PD(13, 3, 1)` and `PD(9, 3, 40)` give 66 keys, exactly 1 to 66 |
| BookNames.ItemsOfConcat | lab7/4-exercies-two-edged-sword.py:422-429 | the items of consecutive descriptions are the items of each in turn |
| BookNames.FreezeProps | lab7/4-exercies-two-edged-sword.py:440-448 | cleanup fails iff the keys are not `1 .. n`; otherwise name `k - 1` of the tuple is the value of key `k` |
| BookNames.TupleIndex | lab7/4-exercies-two-edged-sword.py:453 | tuple indexing succeeds iff `-n <= i < n`, and a negative index counts from the end |
| BookNames.TableOfContents.constructor | lab7/4-exercies-two-edged-sword.py:398-403 | a new table of contents is in state `new` with no names |
| BookNames.TableOfContents.NonEmpty | lab7/4-exercies-two-edged-sword.py:405-411 | `bool` is true iff `len` is positive |
| BookNames.TableOfContents.Begin | lab7/4-exercies-two-edged-sword.py:417-421 | RuntimeError unless the state is `new`; otherwise the state becomes `started` |
| BookNames.TableOfContents.ChapterItems | lab7/4-exercies-two-edged-sword.py:422-429 | the nested loops yield the items of every description in turn |
| BookNames.TableOfContents.BlockItems | lab7/4-exercies-two-edged-sword.py:425-429 | the row and column loops yield the items of one description |
| BookNames.TableOfContents.Finish | lab7/4-exercies-two-edged-sword.py:430 | the exhausted generator leaves the state `stopped` |
| BookNames.TableOfContents.SetItem | lab7/4-exercies-two-edged-sword.py:432-438 | RuntimeError unless `started` or `stopped`; stores the cleaned name; when stopped it locks and validates |
| BookNames.TableOfContents.CleanupChapterNames | lab7/4-exercies-two-edged-sword.py:440-448 | locks, and either freezes the names in key order or poisons them with ValueError |
| BookNames.TableOfContents.ValidateEndState | lab7/4-exercies-two-edged-sword.py:455-460 | passes iff locked with valid names; RuntimeError when not locked, ValueError when poisoned |
| BookNames.TableOfContents.GetItem | lab7/4-exercies-two-edged-sword.py:450-453 | the name `key - 1` under tuple indexing, or the end-state error, or IndexError |
| BookNames.TableOfContents.Names | lab7/4-exercies-two-edged-sword.py:467-471 | the names iff locked with valid names; otherwise the end-state error |
| BookNames.TocScan | lab7/4-exercies-two-edged-sword.py:196-212 | a successful read gives one cleaned name per key; otherwise EOFError with fewer names |
| BookNames.TocScanHit | lab7/4-exercies-two-edged-sword.py:202-212 | a found name contributes its cleaned text, and reading resumes at its end |
| BookNames.TocScanMiss | lab7/4-exercies-two-edged-sword.py:202-209 | a name, or the end after it, that cannot be found stops the read with EOFError |
| BookNames.AssignKeys | lab7/4-exercies-two-edged-sword.py:211 | the dictionary holds exactly the keys assigned so far |
| BookNames.CompleteReadFreezes | lab7/4-exercies-two-edged-sword.py:440-448 | when every key `1 .. n` is read, cleanup succeeds, with name `k - 1` read for key `k` |
| BookNames.Min | lab7/4-exercies-two-edged-sword.py:206-207 | `min` is at most both arguments and is one of them |
| BookNames.ReadTableOfContents | lab7/4-exercies-two-edged-sword.py:196-212 | See note 3 below the table |
| BookNames.ReadRound | lab7/4-exercies-two-edged-sword.py:202-212 | one pass of the loop: EOFError, or the cleaned text with the read resuming at its end |
| BookNames.ParseBookNames | lab7/4-exercies-two-edged-sword.py:185-193 | EOFError without a line delimiter; otherwise it succeeds iff the read finds every name `Book 01` to `Book 66` and its end, and the table is then locked with the 66 cleaned texts read, in key order; every failure is EOFError |
| BookNames.ReadNewTable | lab7/4-exercies-two-edged-sword.py:190-192 | for any format prefix and descriptions whose keys are 1 to `n`, the new table locks with the texts read iff the read is complete, and fails with EOFError otherwise |
| StrParse.RSplitOnceWords | lab7/4-exercies-two-edged-sword.py:238 | unpacking `rsplit(None, 1)` fails iff there are fewer than two words; otherwise the pair is the last word and the prefix holds the other words |
| StrParse.SplitOnPair | lab7/4-exercies-two-edged-sword.py:249 | `split(':')` of `a:b`, with no colon in `a` or `b`, gives `[a, b]` |
| StrParse.ParseDigits | lab7/4-exercies-two-edged-sword.py:249 | `int()` of a run of digits is its decimal value |
| StrParse.ParseNegated | lab7/4-exercies-two-edged-sword.py:249 | `int()` of a minus sign followed by digits is the negated value |
| StrParse.ParseIntString | lab7/4-exercies-two-edged-sword.py:249 | `int()` reads back every decimal rendering of an integer |
| BibleReference.BookFrom | lab7/4-exercies-two-edged-sword.py:243-247 | the first book, counting from 1, whose casefolded name starts with the prefix; none iff no name matches |
| BibleReference.FindBook | lab7/4-exercies-two-edged-sword.py:243-247 | the `for`/`break`/`else` loop finds that book |
| BibleReference.ParseChapterVerse | lab7/4-exercies-two-edged-sword.py:249 | succeeds iff the pair splits at `:` into exactly two parts that `int()` reads, and then gives those two values |
| BibleReference.ReadReference | lab7/4-exercies-two-edged-sword.py:237-253 | a line raises iff it has two words and the names are unavailable; with the names available it finds a reference iff the cleaned prefix starts some book name and the pair parses, and then gives the first such book and the parsed chapter and verse |
| BibleReference.DialogueExit | lab7/4-exercies-two-edged-sword.py:229-235 | the program exits at end of input iff every typed line is asked for again |
| BibleReference.DialogueFirst | lab7/4-exercies-two-edged-sword.py:229-253 | the first line that is not asked for again decides the answer |
| BibleReference.GetBibleReference | lab7/4-exercies-two-edged-sword.py:227-253 | the loop gives the dialogue's answer over the table's names |
| BibleReference.ChapterVerseRoundTrip | lab7/4-exercies-two-edged-sword.py:249 | `chapter:verse` written in decimal parses back to the pair |
| BibleReference.TypedSplit | lab7/4-exercies-two-edged-sword.py:238-242 | a typed `name chapter:verse` splits into the cleaned name and the pair |
| BibleReference.ReferenceRoundTrip | lab7/4-exercies-two-edged-sword.py:237-253 | typing a stored name and `chapter:verse` finds a book at or before that one, with that chapter and verse |
| BinaryTree.MirrorMirror | lab-data-structures-and-algorithms/modules.py:94-107 | inverting twice gives the tree back |
| BinaryTree.MirrorItems | lab-data-structures-and-algorithms/modules.py:101-107 | inverting keeps the items and the root item |
| BinaryTree.PerfectPreorder | lab-data-structures-and-algorithms/modules.py:52-71 | the tree built from consecutive numbers lists them in order, depth first |
| BinaryTree.PerfectSize | lab-data-structures-and-algorithms/modules.py:54 | `levels` levels hold `2 ** levels - 1` nodes, using up the whole range |
| BinaryTree.Lookup | lab-data-structures-and-algorithms/modules.py:168-177 | See note 4 below the table |
| BinaryTree.LookupBadDirection | lab-data-structures-and-algorithms/modules.py:168-177 | ValueError iff the walk reaches the first character that is not a direction without stepping out of a missing node |
| BinaryTree.PathTo | lab-data-structures-and-algorithms/modules.py:143-154 | every item of the tree sits at the end of some path |
| BinaryTree.HoldsAtItem | lab-data-structures-and-algorithms/modules.py:168-177 | an item found along a path is an item of the tree |
| BinaryTree.BinaryTreeNode.constructor | lab-data-structures-and-algorithms/modules.py:183-187 | a node holds its item and has no children |
| BinaryTree.BinaryTreeNode.Invert | lab-data-structures-and-algorithms/modules.py:101-107 | swapping the children recursively leaves the mirror image of the tree |
| BinaryTree.CreateNode | lab-data-structures-and-algorithms/modules.py:64-71 | builds a fresh perfect tree of the level and uses up `2 ** level - 1` numbers |
| BinaryTree.CreateTree | lab-data-structures-and-algorithms/modules.py:52-61 | ValueError for negative levels; otherwise the perfect tree over `1 .. 2 ** levels - 1`, and `None` for zero levels |
| BinaryTree.NodeToList | lab-data-structures-and-algorithms/modules.py:120-125 | appends the subtree's items depth first |
| BinaryTree.TreeToList | lab-data-structures-and-algorithms/modules.py:110-117 | the list holds every item, depth first |
| BinaryTree.IterNode | lab-data-structures-and-algorithms/modules.py:135-140 | iteration yields the same items in the same order as the list |
| BinaryTree.GetItemFromNode | lab-data-structures-and-algorithms/modules.py:168-177 | following the path through the nodes agrees with the lookup in the tree's model |
| BinaryTree.GetItemFromTree | lab-data-structures-and-algorithms/modules.py:157-165 | `ROOT` gives the root item; any other path is followed |
| BinaryTree.FrontIsShortest | lab-data-structures-and-algorithms/modules.py:147-154 | the node at the front of the queue is as shallow as any unvisited place the item can be |
| BinaryTree.NoneLeft | lab-data-structures-and-algorithms/modules.py:148 | an empty queue means the item is not in the tree |
| BinaryTree.ShownUnshown | lab-data-structures-and-algorithms/modules.py:152 | turning the empty path into `ROOT` can be undone |
| BinaryTree.ReadBack | lab-data-structures-and-algorithms/modules.py:152 | `get_item_from_tree` reads an item back from the path shown for it |
| BinaryTree.Expand | lab-data-structures-and-algorithms/modules.py:149-154 | one pass of the queue keeps it in level order, and shrinks the work left |
| BinaryTree.BreadthFirstSearch | lab-data-structures-and-algorithms/modules.py:143-154 | `None` iff the item is absent; otherwise a path that reads the item back and is as short as any path to it |
| Heaps.BeforeIsOrder | lab-data-structures-and-algorithms/modules.py:294-296 | `_Reverse`'s `<` is `>=`, which orders the items largest first |
| Heaps.HeapPush | lab-data-structures-and-algorithms/modules.py:239-242 | pushing keeps the heap order and adds the item |
| Heaps.HeapFront | lab-data-structures-and-algorithms/modules.py:244-247 | the front of a heap comes first among all its items |
| Heaps.SiftDown | lab-data-structures-and-algorithms/modules.py:244-247 | restores the heap order without changing the items |
| Heaps.HeapPop | lab-data-structures-and-algorithms/modules.py:244-247 | IndexError on an empty heap; otherwise the front is returned and removed, keeping the heap order |
| Heaps.Heapify | lab-data-structures-and-algorithms/modules.py:232 | gives a heap of the same items |
| Heaps.SortedUnique | lab-data-structures-and-algorithms/modules.py:262-265 | two sorted lists of the same items are equal, so draining has one possible output |
| Heaps.HeapQueue.constructor | lab-data-structures-and-algorithms/modules.py:226-233 | the queue holds the given items |
| Heaps.HeapQueue.Len | lab-data-structures-and-algorithms/modules.py:235-237 | `len` is the number of items |
| Heaps.HeapQueue.Bool | lab-data-structures-and-algorithms/modules.py:253-255 | `bool` is true iff the queue is not empty |
| Heaps.HeapQueue.Push | lab-data-structures-and-algorithms/modules.py:278-280 | pushing adds the item |
| Heaps.HeapQueue.Pop | lab-data-structures-and-algorithms/modules.py:282-284 | IndexError when empty; otherwise one of the first items in the queue's order (smallest, or largest when reversed), which is removed |
| Heaps.HeapQueue.Extend | lab-data-structures-and-algorithms/modules.py:257-260 | extending adds every item |
| Heaps.HeapQueue.Drain | lab-data-structures-and-algorithms/modules.py:262-265 | iteration empties the queue and yields its items sorted in the queue's order |

Notes on the longer contracts:

1. `BibleParser.StepEffects`: `+=` on a locked Bible is ArithmeticError. Verse text appends its cleaned text and advances verse and size. `NEXT` raises EOFError iff the Bible is at 1:1:1. `NEXT` never changes the size, and locks only at verse 1 of chapter 1.
2. `BibleParser.ParseBible`: EOFError when the file has no line delimiter. Otherwise it succeeds iff the scan with the delimiter doubled succeeds, and the resulting Bible is locked.
3. `BookNames.ReadTableOfContents`:
   - RuntimeError unless the state is `new`. With no keys, the state is left `stopped` and empty.
   - Otherwise the names read are assigned to their keys, and a complete read locks the table and validates it.
   - A failed read raises EOFError, and the table stays `stopped` only when the last name was the one that failed.
4. `BinaryTree.Lookup`: it succeeds only with the item at the node the path reaches. For a path of `/` and `\` it succeeds iff the path leads to a node, and fails otherwise with AttributeError. `BinaryTree.LookupBadDirection` says when the result is ValueError: the walk reaches a character that is neither `/` nor `\` before stepping out of a missing node. The direction is read before the child, so a bad character right below a leaf is still ValueError. Every other failure is AttributeError.

## Left out

- I/O: files and memory maps, `input`, `print`, `argparse` and the `main` functions. Data arrives as byte sequences and lines.
  - `execute_rot_13_command_line_program` is left out.
  - `test_database` and `get_reference_and_text` are left out.
  - `display_tree` and `_display_node` only print, and are left out.
- SQLite: `make_database`, `table_exists`, `populate_database`, `has_rows` and `retrieve_bible_verse` are left out, along with the SQL texts.
- `Bible.__del__` and `TableOfContents.__del__` only print, and are left out.
- `Bible.__add__`, `__sub__`, `__mul__` and `__truediv__` return `NotImplemented` and are left out.
- Type checks: the `isinstance` TypeErrors are not modelled, because each value has one Dafny type.
  - This covers the node types in `BinaryTreeNode`'s setters, non-list heaps, non-PD descriptions and non-string characters.
  - It also covers `NotImplemented` for other operand types.
- IntermediateFunctions.MaxInList: integers only; Python's float values are left out.
- IntermediateFunctions.IsPangram: `str.lower` is modelled on ASCII only. Non-ASCII capitals that lower to ASCII letters (the Kelvin sign, `İ`) are not counted.
- Latin1.Fold: `str.casefold` and `str.isalpha` are modelled for Latin-1 and µ only. Other Unicode characters are treated as non-letters and are not folded.
- BibleReference.ReadReference: book names are casefolded as ASCII. `Latin1.AsciiCasefold` shows this agrees with `str.casefold` on ASCII names.
- StrParse.ParseInt: `int()` is modelled on ASCII digits only. Other Unicode decimal digits, such as the fullwidth `１`, are not read as digits.
- Generators: a generator is its drained list.
  - A consumer that stops early is not modelled. Neither are the items yielded before a KeyError in `convert_ICAO`, or those yielded before the UnboundLocalError in `translate`.
- Heaps.HeapPush: states the heap order and the contents, not the exact list layout `heapq.heappush` produces.
  - Heaps.HeapPop and Heaps.Heapify are weaker in the same way.
  - The aliasing of the list passed to `HeapQueue` (the caller's list is heapified in place) is not modelled.
- Heaps.HeapQueue.Pop: `HeapQueue`, `AdvHeapQueue` and `RevHeapQueue` are one class with a `reversed` flag, since the model has no inheritance. `_Reverse` is the flag's ordering.
- Heaps.HeapQueue: items are integers; any other comparable type is not modelled.
- BinaryTree.BinaryTreeNode: items are integers, so `None` and other item types are not modelled.
  - `Valid` requires the nodes to form a tree. The source also accepts shared and cyclic nodes, such as a node that is its own left child. Their behaviour is not modelled.
- BookNames.TableOfContents: only chapter formats of the form `prefix + '{:02}'` are modelled. Other format strings are not.
- BinaryTree.BreadthFirstSearch: states that the path is a shortest path to the item, not which of several equally short paths (the leftmost in level order) is returned.
- BinaryTree.CreateTree: the RuntimeError for a range left over after building is shown never to happen, so it is not a branch of the model.
- ICAO table: the triple-quoted text is modelled as its list of lines, because `splitlines` of that literal is exactly those lines.
- Lab 8 (queues and threads), `calculate_word_average` and `write_line_numbers` are not part of this model.

## Findings

| source | as written | input that shows it | evidently intended | confidence | as-written member | corrected member |
|---|---|---|---|---|---|---|
| lab2/1_simple_scripts.py:41-47 | returns `b` as soon as `b > a`, and returns nothing when `a` is largest | `function_2(3, 2, 1)` gives `None`; `function_2(1, 2, 3)` gives 2 | the largest of the three values | not executed | SimpleScripts.Function2Misses | SimpleScripts.LargestOfThree |
| lab6_text_processing_functions/palindrome.py:46-52 | appends each casefolded character to the line and tests it against its reverse only for a punctuation character; otherwise returns `None` | `is_palindrome('racecar')` is `None` | true iff the line, cleaned of punctuation and casefolded, reads the same backwards | not executed | Palindrome.RacecarNotRecognised | Palindrome.IntendedSymmetric |
| lab3/3_intermediate_functions.py:88-89 | the second line adds `s` only when the next count exceeds 1 | count 1 gives `0 bottle` | plural unless the next count is exactly 1, as on the first line | not executed | IntermediateFunctions.SecondLineAsWritten | IntermediateFunctions.IntendedAnnouncesNext |
| lab6_text_processing_functions/hapax_legomenon.py:59-60 | reports the last index of the keys, `len(counts) - 1`, and raises UnboundLocalError on an empty file | `the the cat` gives 1 | the number of occurrences of `the` | not executed | Hapax.CountTheDiffers | Hapax.CountTheIsOccurrences |
