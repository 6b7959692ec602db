/**
 * The table of contents of lab7/4-exercies-two-edged-sword.py: the pivot
 * descriptions `PD`, the class `TableOfContents` with its run-once key
 * generator and its new / started / stopped / locked life cycle, and
 * `read_table_of_contents`, which fills the table from the book-name grid
 * at the head of the file.
 *
 * The generator `TableOfContents.__iter__` is split in three: `Begin` is
 * its first resumption (the run-once check), `ChapterItems` its loops, and
 * `Finish` its exhaustion.  `ReadTableOfContents` calls them in the order
 * `itertools.pairwise` drives the generator, so only the last assignment
 * reaches a stopped table.
 */
module BookNames {
  import opened Wrappers
  import opened Text
  import opened BibleText

  /** `PD(rows, columns, start)`: one column-major block of names. */
  datatype PD = PD(rows: int, columns: int, start: int)

  /** `TableOfContents.STATE`. */
  datatype TocState = New | Started | Stopped | Locked

  /**
   * The private `__chapter_names`: a dictionary while names are being
   * collected, a tuple once validated, `None` once validation failed.
   */
  datatype ChapterNames = Collecting(byKey: map<int, string>) | Frozen(names: seq<string>) | Poisoned

  /** `len(range(n))`. */
  function Span(n: int): nat {
    if n < 0 then 0 else n
  }

  /** The keys row `row` of a block yields: `start + row`, then one key per column, `rows` apart. */
  function RowKeys(pd: PD, row: int): (keys: seq<int>)
    ensures |keys| == Span(pd.columns)
    ensures forall c :: 0 <= c < |keys| ==> keys[c] == pd.start + row + c * pd.rows
  {
    seq(Span(pd.columns), c requires 0 <= c < Span(pd.columns) => pd.start + row + c * pd.rows)
  }

  /** The keys of the first `n` rows of a block, row after row. */
  function RowsKeys(pd: PD, n: nat): (keys: seq<int>)
    ensures |keys| == n * Span(pd.columns)
  {
    if n == 0 then [] else RowsKeys(pd, n - 1) + RowKeys(pd, n - 1)
  }

  /** The keys one pivot description yields, in generator order. */
  function PivotKeys(pd: PD): (keys: seq<int>)
    ensures |keys| == Span(pd.rows) * Span(pd.columns)
  {
    RowsKeys(pd, Span(pd.rows))
  }

  /** The keys of all pivot descriptions, one block after another. */
  function Keys(pivots: seq<PD>): seq<int> {
    if pivots == [] then []
    else Keys(pivots[..|pivots| - 1]) + PivotKeys(pivots[|pivots| - 1])
  }

  /** `'{:02}'.format(k)`: at least two digits, a minus sign before negative numbers. */
  function Format02(k: int): (s: string)
    ensures |s| >= 2 && IsLatin1(s)
  {
    if k < 0 then "-" + Digits(-k) else ZeroPad(k, 2)
  }

  /** The chapter name a format of the shape `prefix + '{:02}'` gives for key `k`. */
  function Name(prefix: string, k: int): string {
    prefix + Format02(k)
  }

  /** What the generator yields: each key with its formatted name. */
  function ItemsOf(prefix: string, keys: seq<int>): (items: seq<(int, string)>)
    ensures |items| == |keys|
    ensures forall i :: 0 <= i < |keys| ==> items[i] == (keys[i], Name(prefix, keys[i]))
  {
    seq(|keys|, i requires 0 <= i < |keys| => (keys[i], Name(prefix, keys[i])))
  }

  /** The generator yields one more item for one more key. */
  lemma ItemsOfSnoc(prefix: string, keys: seq<int>, k: int)
    ensures ItemsOf(prefix, keys + [k]) == ItemsOf(prefix, keys) + [(k, Name(prefix, k))]
  {
    assert ItemsOf(prefix, keys + [k])[|keys|] == (k, Name(prefix, k));
  }

  /** The items of two runs of keys are the items of the first run, then those of the second. */
  lemma ItemsOfConcat(prefix: string, a: seq<int>, b: seq<int>)
    ensures ItemsOf(prefix, a + b) == ItemsOf(prefix, a) + ItemsOf(prefix, b)
  {
    assert forall i :: 0 <= i < |a| + |b| ==> (a + b)[i] == if i < |a| then a[i] else b[i - |a|];
  }

  function Items(prefix: string, pivots: seq<PD>): seq<(int, string)> {
    ItemsOf(prefix, Keys(pivots))
  }

  /** `range(1, n + 1)` as a set. */
  function KeyRange(n: nat): (s: set<int>)
    ensures forall k :: k in s <==> 1 <= k <= n
    ensures |s| == n
  {
    if n == 0 then {} else KeyRange(n - 1) + {n}
  }

  /**
   * `__cleanup_chapter_names`: the dictionary is frozen into the tuple of
   * its values in key order when its keys are exactly 1 to its size, and
   * discarded otherwise.
   */
  function Freeze(m: map<int, string>): ChapterNames {
    if m.Keys == KeyRange(|m|) then Frozen(seq(|m|, i requires 0 <= i < |m| && i + 1 in m => m[i + 1]))
    else Poisoned
  }

  /**
   * Freezing succeeds exactly when the keys are 1 to the size, and then
   * name `k` sits at index `k - 1`.
   */
  lemma FreezeProps(m: map<int, string>)
    ensures Freeze(m).Poisoned? <==> m.Keys != KeyRange(|m|)
    ensures Freeze(m).Frozen? ==>
      |Freeze(m).names| == |m| && forall k :: 1 <= k <= |m| ==> Freeze(m).names[k - 1] == m[k]
  {
  }

  /** Python indexing of a tuple of length `n`: negative keys count from the end. */
  function TupleIndex(i: int, n: nat): (r: Option<nat>)
    ensures r.Some? <==> -(n as int) <= i < n
    ensures r.Some? ==> r.value < n && (r.value == i || r.value == i + n)
  {
    if 0 <= i < n then Some(i) else if -(n as int) <= i < 0 then Some(i + n) else None
  }

  lemma LeMul(a: int, b: int, c: int)
    requires a <= b && c >= 0
    ensures a * c <= b * c
  {
  }

  /** Row `row`, column `column` of a block holds key `start + row + column * rows`. */
  lemma {:induction false} RowsKeysHave(pd: PD, n: nat, row: int, column: int)
    requires 0 <= row < n && 0 <= column < Span(pd.columns)
    ensures pd.start + row + column * pd.rows in RowsKeys(pd, n)
  {
    if row == n - 1 {
      assert RowKeys(pd, row)[column] == pd.start + row + column * pd.rows;
    } else {
      RowsKeysHave(pd, n - 1, row, column);
    }
  }

  /** Every key of row `row` lies between `start + row` and the row's last column. */
  lemma RowKeysBound(pd: PD, row: int, k: int)
    requires pd.rows >= 0 && k in RowKeys(pd, row)
    ensures pd.start + row <= k <= pd.start + row + (Span(pd.columns) - 1) * pd.rows
  {
    var keys := RowKeys(pd, row);
    var c :| 0 <= c < |keys| && keys[c] == k;
    LeMul(c, Span(pd.columns) - 1, pd.rows);
  }

  /** Every key of the first `n` rows is `start + row + column * rows` for a row below `n`. */
  lemma {:induction false} RowsKeysBound(pd: PD, n: nat, k: int)
    requires pd.rows >= 0 && n <= pd.rows && k in RowsKeys(pd, n)
    ensures pd.start <= k < pd.start + n + (Span(pd.columns) - 1) * pd.rows
  {
    assert RowsKeys(pd, n) == RowsKeys(pd, n - 1) + RowKeys(pd, n - 1);
    if k in RowsKeys(pd, n - 1) {
      RowsKeysBound(pd, n - 1, k);
    } else {
      RowKeysBound(pd, n - 1, k);
    }
  }

  lemma RowsTimesColumns(r: int, c: int)
    ensures r + (c - 1) * r == r * c
  {
  }

  /** Position `j` of a block with `r` rows and `c` columns lies in column `j / r`, row `j % r`. */
  lemma BlockPosition(j: int, r: int, c: int)
    requires 0 <= j < r * c && r > 0
    ensures j == (j / r) * r + j % r && 0 <= j % r < r && 0 <= j / r < c
  {
    if j / r >= c {
      LeMul(c, j / r, r);
    }
  }

  /**
   * One pivot description yields every key from `start` up to but not
   * including `start + rows * columns`, and nothing else.
   */
  lemma PivotKeysRange(pd: PD, k: int)
    ensures k in PivotKeys(pd) <==> pd.start <= k < pd.start + Span(pd.rows) * Span(pd.columns)
  {
    var r, c := Span(pd.rows), Span(pd.columns);
    if k in PivotKeys(pd) {
      RowsKeysBound(pd, r, k);
      RowsTimesColumns(r, c);
    }
    if pd.start <= k < pd.start + r * c {
      var j := k - pd.start;
      assert 0 * c == 0;
      BlockPosition(j, r, c);
      RowsKeysHave(pd, r, j % r, j / r);
    }
  }

  /** Two pivot descriptions yield the keys of the first block, then those of the second. */
  lemma KeysOfTwo(a: PD, b: PD)
    ensures Keys([a, b]) == PivotKeys(a) + PivotKeys(b)
  {
    assert [a, b][..1] == [a];
    assert [a][..0] == [];
    assert Keys([a]) == [] + PivotKeys(a) == PivotKeys(a);
  }

  /** The pivot descriptions `parse_book_names` passes: 13 rows of 3 from 1, 9 rows of 3 from 40. */
  const StandardPivots := [PD(13, 3, 1), PD(9, 3, 40)]

  /** The standard pivots yield 66 keys, which are exactly the book numbers 1 to 66. */
  lemma StandardKeys()
    ensures |Keys(StandardPivots)| == 66
    ensures forall k :: k in Keys(StandardPivots) <==> 1 <= k <= 66
  {
    KeysOfTwo(PD(13, 3, 1), PD(9, 3, 40));
    forall k ensures k in Keys(StandardPivots) <==> 1 <= k <= 66 {
      PivotKeysRange(PD(13, 3, 1), k);
      PivotKeysRange(PD(9, 3, 40), k);
    }
  }

  /** The class `TableOfContents` for a chapter format `prefix + '{:02}'`. */
  class TableOfContents {
    const prefix: string
    const pivots: seq<PD>
    var state: TocState
    var chapterNames: ChapterNames

    /**
     * Before the lock names are collected in a dictionary, which is empty
     * while the table is new; after it they are frozen or discarded.
     */
    ghost predicate Valid()
      reads this
    {
      && (state == New ==> chapterNames == Collecting(map[]))
      && (state != Locked <==> chapterNames.Collecting?)
    }

    /** `TableOfContents.__init__`: a new table with no names. */
    constructor (prefix: string, pivots: seq<PD>)
      ensures this.prefix == prefix && this.pivots == pivots
      ensures state == New && chapterNames == Collecting(map[]) && Valid()
    {
      this.prefix := prefix;
      this.pivots := pivots;
      state := New;
      chapterNames := Collecting(map[]);
    }

    /** `bool()`: whether any name is stored. */
    predicate NonEmpty()
      reads this
      ensures NonEmpty() <==> Length() > 0
    {
      match chapterNames
      case Collecting(m) => |m| > 0
      case Frozen(names) => |names| > 0
      case Poisoned => false
    }

    /** `len()`: the number of names stored, 0 once they were discarded. */
    function Length(): nat
      reads this
    {
      match chapterNames
      case Collecting(m) => |m|
      case Frozen(names) => |names|
      case Poisoned => 0
    }

    /** The `current_state` property. */
    function CurrentState(): TocState
      reads this
    {
      state
    }

    /** The first resumption of the generator: it may run only once. */
    method Begin() returns (outcome: Outcome)
      requires Valid()
      modifies this
      ensures Valid() && chapterNames == old(chapterNames)
      ensures old(state) != New ==> outcome == Fail(RuntimeError) && state == old(state)
      ensures old(state) == New ==> outcome == Pass && state == Started
    {
      if state != New {
        return Fail(RuntimeError);
      }
      state := Started;
      outcome := Pass;
    }

    /** The loops of the generator: each key of each block with its formatted name. */
    method ChapterItems() returns (items: seq<(int, string)>)
      ensures items == Items(prefix, pivots)
    {
      items := [];
      var p := 0;
      while p < |pivots|
        invariant 0 <= p <= |pivots|
        invariant items == ItemsOf(prefix, Keys(pivots[..p]))
      {
        var block := BlockItems(pivots[p]);
        assert pivots[..p + 1][..p] == pivots[..p];
        ItemsOfConcat(prefix, Keys(pivots[..p]), PivotKeys(pivots[p]));
        items := items + block;
        p := p + 1;
      }
      assert pivots[..p] == pivots;
    }

    /** The middle and inner loops: the items of one block, row after row. */
    method BlockItems(description: PD) returns (items: seq<(int, string)>)
      ensures items == ItemsOf(prefix, PivotKeys(description))
    {
      items := [];
      var row := 0;
      while row < description.rows
        invariant 0 <= row <= Span(description.rows)
        invariant items == ItemsOf(prefix, RowsKeys(description, row))
      {
        var head := row + description.start;
        var column := 0;
        ghost var before := RowsKeys(description, row);
        while column < description.columns
          invariant 0 <= column <= Span(description.columns)
          invariant items == ItemsOf(prefix, before + RowKeys(description, row)[..column])
        {
          var chapter := head + column * description.rows;
          assert RowKeys(description, row)[..column + 1] == RowKeys(description, row)[..column] + [chapter];
          assert before + RowKeys(description, row)[..column + 1] == (before + RowKeys(description, row)[..column]) + [chapter];
          ItemsOfSnoc(prefix, before + RowKeys(description, row)[..column], chapter);
          items := items + [(chapter, Name(prefix, chapter))];
          column := column + 1;
        }
        assert RowKeys(description, row)[..column] == RowKeys(description, row);
        row := row + 1;
      }
    }

    /** The exhaustion of the generator. */
    method Finish()
      requires Valid() && state == Started
      modifies this
      ensures Valid() && state == Stopped && chapterNames == old(chapterNames)
    {
      state := Stopped;
    }

    /**
     * `toc[key] = value`: only while the generator runs or has stopped;
     * the cleaned value is stored under the key, and an assignment to a
     * stopped table locks it and validates the names.
     */
    method SetItem(key: int, value: string) returns (outcome: Outcome)
      requires Valid()
      modifies this
      ensures Valid()
      ensures old(state) !in {Started, Stopped} ==>
        outcome == Fail(RuntimeError) && state == old(state) && chapterNames == old(chapterNames)
      ensures old(state) == Started ==>
        outcome == Pass && state == Started &&
        chapterNames == Collecting(old(chapterNames).byKey[key := Clean(value)])
      ensures old(state) == Stopped ==>
        var m := old(chapterNames).byKey[key := Clean(value)];
        state == Locked && chapterNames == Freeze(m) &&
        outcome == (if Freeze(m).Poisoned? then Fail(ValueError) else Pass)
    {
      if state != Started && state != Stopped {
        return Fail(RuntimeError);
      }
      chapterNames := Collecting(chapterNames.byKey[key := Clean(value)]);
      outcome := Pass;
      if state == Stopped {
        outcome := CleanupChapterNames();
      }
    }

    /** `__cleanup_chapter_names`: lock, then freeze the names or discard them. */
    method CleanupChapterNames() returns (outcome: Outcome)
      requires chapterNames.Collecting?
      modifies this
      ensures Valid() && state == Locked
      ensures chapterNames == Freeze(old(chapterNames).byKey)
      ensures outcome == (if chapterNames.Poisoned? then Fail(ValueError) else Pass)
    {
      state := Locked;
      var m := chapterNames.byKey;
      if m.Keys != KeyRange(|m|) {
        chapterNames := Poisoned;
        return Fail(ValueError);
      }
      chapterNames := Frozen(seq(|m|, i requires 0 <= i < |m| && i + 1 in m => m[i + 1]));
      outcome := Pass;
    }

    /** `__validate_end_state`: names are readable only once locked and valid. */
    function ValidateEndState(): (outcome: Outcome)
      reads this
      ensures outcome == Pass <==> state == Locked && chapterNames.Frozen?
      ensures state != Locked ==> outcome == Fail(RuntimeError)
      ensures state == Locked && chapterNames.Poisoned? ==> outcome == Fail(ValueError)
    {
      if state != Locked then Fail(RuntimeError)
      else if chapterNames.Poisoned? || chapterNames.Collecting? then Fail(ValueError)
      else Pass
    }

    /**
     * `toc[key]`: the name of book `key`, counted from 1, with Python's
     * tuple indexing, so key 0 is the last book and negative keys count
     * back from it.
     */
    function GetItem(key: int): (r: Result<string>)
      reads this
      requires Valid()
      ensures ValidateEndState().Fail? ==> r == Err(ValidateEndState().error)
      ensures ValidateEndState() == Pass ==>
        var names := chapterNames.names;
        && (1 <= key <= |names| ==> r == Ok(names[key - 1]))
        && (-|names| < key <= 0 ==> r == Ok(names[key - 1 + |names|]))
        && (key > |names| || key <= -|names| ==> r == Err(IndexError))
    {
      match ValidateEndState()
      case Fail(e) => Err(e)
      case Pass =>
        match TupleIndex(key - 1, |chapterNames.names|)
        case None => Err(IndexError)
        case Some(i) => Ok(chapterNames.names[i])
    }

    /** The `names` property: the frozen tuple of names. */
    function Names(): (r: Result<seq<string>>)
      reads this
      requires Valid()
      ensures r.Ok? <==> state == Locked && chapterNames.Frozen?
      ensures r.Ok? ==> r.value == chapterNames.names
      ensures r.Err? ==> r.error == ValidateEndState().error
    {
      match ValidateEndState()
      case Fail(e) => Err(e)
      case Pass => Ok(chapterNames.names)
    }
  }

  lemma NameLatin1(prefix: string, k: int)
    requires IsLatin1(prefix)
    ensures IsLatin1(Name(prefix, k))
  {
    Latin1Concat(prefix, Format02(k));
  }

  /** Python's `min` of two integers. */
  function Min(a: int, b: int): (m: int)
    ensures m <= a && m <= b && (m == a || m == b)
  {
    if a <= b then a else b
  }

  /** `name.encode('latin_1')` for the name of key `k`. */
  function NameBytes(prefix: string, k: int): seq<Byte>
    requires IsLatin1(prefix)
  {
    NameLatin1(prefix, k);
    Encode(Name(prefix, k))
  }

  /**
   * One round of `read_table_of_contents` from cursor `start`: find the
   * current name `bookA`, and end its text at the nearer of the next name
   * `bookB` and the line delimiter.  Gives the end and the text, or
   * nothing when either search fails.
   */
  function TocStep(data: seq<Byte>, eol: seq<Byte>, bookA: seq<Byte>, bookB: seq<Byte>, start: nat): (r: Option<(nat, string)>)
    requires start <= |data|
    ensures r.Some? ==> start <= r.value.0 <= |data|
  {
    var index := Find(data, bookA, start);
    if index < 0 then None
    else
      var from := index + |bookA|;
      var end := Min(Find(data, bookB, from), Find(data, eol, from));
      if end < 0 then None
      else Some((end, Decode(data[from..end])))
  }

  /** The encoded names of the keys, which the read searches for. */
  function NameList(prefix: string, keys: seq<int>): (names: seq<seq<Byte>>)
    requires IsLatin1(prefix)
    ensures |names| == |keys| && forall j :: 0 <= j < |keys| ==> names[j] == NameBytes(prefix, keys[j])
  {
    seq(|keys|, j requires 0 <= j < |keys| => NameBytes(prefix, keys[j]))
  }

  /**
   * The loop of `read_table_of_contents` as a function over the encoded
   * names of the keys the generator yields, from the `i`-th with cursor
   * `start`: each round looks for the key's name followed by the next
   * key's name (the line delimiter after the last key) and goes on from
   * the end of the text.  Returns the cleaned texts found, one per round,
   * and the outcome; a failed round ends the read with EOFError.
   */
  function TocScan(data: seq<Byte>, eol: seq<Byte>, names: seq<seq<Byte>>, i: nat, start: nat)
    : (r: (seq<string>, Outcome))
    requires i <= |names| && start <= |data|
    ensures r.1 == Pass ==> |r.0| == |names| - i
    ensures r.1 != Pass ==> r.1 == Fail(EOFError) && |r.0| < |names| - i
    ensures forall j :: 0 <= j < |r.0| ==> IsNormal(r.0[j])
    decreases |names| - i
  {
    if i == |names| then ([], Pass)
    else
      var bookB := if i + 1 < |names| then names[i + 1] else eol;
      match TocStep(data, eol, names[i], bookB, start)
      case None => ([], Fail(EOFError))
      case Some((end, text)) =>
        var rest := TocScan(data, eol, names, i + 1, end);
        CleanNormalizes(text);
        ([Clean(text)] + rest.0, rest.1)
  }

  /** A round that finds its name and its end hands on to the next key. */
  lemma TocScanHit(data: seq<Byte>, eol: seq<Byte>, names: seq<seq<Byte>>, i: nat, start: nat,
                   bookB: seq<Byte>, end: nat, text: string)
    requires i < |names| && start <= |data|
    requires bookB == if i + 1 < |names| then names[i + 1] else eol
    requires TocStep(data, eol, names[i], bookB, start) == Some((end, text))
    ensures end <= |data|
    ensures var rest := TocScan(data, eol, names, i + 1, end);
      TocScan(data, eol, names, i, start) == ([Clean(text)] + rest.0, rest.1)
  {
  }

  /** A hit extends the texts found before it by the cleaned text. */
  lemma TocScanAdvance(data: seq<Byte>, eol: seq<Byte>, names: seq<seq<Byte>>, i: nat, start: nat,
                       bookB: seq<Byte>, end: nat, text: string, done: seq<string>)
    requires i < |names| && start <= |data|
    requires bookB == if i + 1 < |names| then names[i + 1] else eol
    requires TocStep(data, eol, names[i], bookB, start) == Some((end, text))
    ensures end <= |data|
    ensures var rest := TocScan(data, eol, names, i, start);
      var next := TocScan(data, eol, names, i + 1, end);
      (done + rest.0, rest.1) == ((done + [Clean(text)]) + next.0, next.1)
  {
    TocScanHit(data, eol, names, i, start, bookB, end, text);
    var next := TocScan(data, eol, names, i + 1, end);
    assert done + ([Clean(text)] + next.0) == (done + [Clean(text)]) + next.0;
  }

  /** A round that misses its name or its end stops the read with EOFError. */
  lemma TocScanMiss(data: seq<Byte>, eol: seq<Byte>, names: seq<seq<Byte>>, i: nat, start: nat, bookB: seq<Byte>)
    requires i < |names| && start <= |data|
    requires bookB == if i + 1 < |names| then names[i + 1] else eol
    requires TocStep(data, eol, names[i], bookB, start) == None
    ensures TocScan(data, eol, names, i, start) == ([], Fail(EOFError))
  {
  }

  /**
   * The dictionary after `toc[keys[j]] = texts[j]` for each text in turn,
   * starting from the empty one.
   */
  function Assign(keys: seq<int>, texts: seq<string>): map<int, string>
    requires |texts| <= |keys|
  {
    if texts == [] then map[]
    else Assign(keys, texts[..|texts| - 1])[keys[|texts| - 1] := texts[|texts| - 1]]
  }

  /** One more assignment stores one more text under the next key. */
  lemma AssignSnoc(keys: seq<int>, texts: seq<string>, text: string)
    requires |texts| < |keys|
    ensures Assign(keys, texts + [text]) == Assign(keys, texts)[keys[|texts|] := text]
  {
    assert (texts + [text])[..|texts|] == texts;
  }

  /** The assignments store a name under each key used, and nothing else. */
  lemma {:induction false} AssignKeys(keys: seq<int>, texts: seq<string>, k: int)
    requires |texts| <= |keys|
    ensures k in Assign(keys, texts) <==> k in keys[..|texts|]
  {
    if texts != [] {
      var n := |texts| - 1;
      AssignKeys(keys, texts[..n], k);
      assert keys[..n + 1] == keys[..n] + [keys[n]];
    }
  }

  /** Assigning cleaned texts stores only cleaned names. */
  lemma {:induction false} AssignNormal(keys: seq<int>, texts: seq<string>, k: int)
    requires |texts| <= |keys| && k in Assign(keys, texts)
    requires forall j :: 0 <= j < |texts| ==> IsNormal(texts[j])
    ensures IsNormal(Assign(keys, texts)[k])
  {
    var n := |texts| - 1;
    if keys[n] != k {
      AssignNormal(keys, texts[..n], k);
    }
  }

  lemma MapSize(m: map<int, string>, n: nat)
    requires forall k :: k in m <==> 1 <= k <= n
    ensures |m| == n && m.Keys == KeyRange(n)
  {
    assert m.Keys == KeyRange(n);
  }

  /**
   * When the generator yields each of the keys 1 to `n` and a read finds
   * every name, the table freezes into `n` names, the name of book `k` at
   * index `k - 1`.
   */
  lemma CompleteReadFreezes(keys: seq<int>, texts: seq<string>, n: nat)
    requires |texts| == |keys| == n && forall k :: k in keys <==> 1 <= k <= n
    ensures var m := Assign(keys, texts);
      && Freeze(m).Frozen? && |Freeze(m).names| == n
      && forall k :: 1 <= k <= n ==> Freeze(m).names[k - 1] == m[k]
  {
    var m := Assign(keys, texts);
    assert keys[..|texts|] == keys;
    forall k ensures k in m <==> 1 <= k <= n {
      AssignKeys(keys, texts, k);
    }
    MapSize(m, n);
    FreezeProps(m);
  }

  /** A frozen table of cleaned names holds only cleaned names. */
  lemma FreezeNormal(m: map<int, string>)
    requires forall k :: k in m ==> IsNormal(m[k])
    ensures Freeze(m).Frozen? ==> forall j :: 0 <= j < |Freeze(m).names| ==> IsNormal(Freeze(m).names[j])
  {
  }

  /**
   * `read_table_of_contents`: start the generator, then for each item and
   * the one after it (the delimiter after the last) find the item's name,
   * bound its text, and store it.  The generator is exhausted, so the
   * table stops, just before the last item is stored; storing it locks the
   * table.  The texts stored and the outcome are those `TocScan` gives.
   */
  method ReadTableOfContents(data: seq<Byte>, eol: seq<Byte>, toc: TableOfContents) returns (outcome: Outcome)
    requires toc.Valid()
    modifies toc
    ensures toc.Valid()
    ensures old(toc.state) != New ==>
      outcome == Fail(RuntimeError) && toc.state == old(toc.state) && toc.chapterNames == old(toc.chapterNames)
    ensures old(toc.state) == New && Keys(toc.pivots) == [] ==>
      outcome == Pass && toc.state == Stopped && toc.chapterNames == Collecting(map[])
    ensures old(toc.state) == New && Keys(toc.pivots) != [] && !IsLatin1(toc.prefix) ==>
      outcome == Fail(ValueError) && toc.state == Started && toc.chapterNames == Collecting(map[])
    ensures old(toc.state) == New && Keys(toc.pivots) != [] && IsLatin1(toc.prefix) ==>
      var keys := Keys(toc.pivots);
      var (texts, result) := TocScan(data, eol, NameList(toc.prefix, keys), 0, 0);
      var m := Assign(keys, texts);
      && (result == Pass ==>
            toc.state == Locked && toc.chapterNames == Freeze(m) &&
            outcome == (if Freeze(m).Poisoned? then Fail(ValueError) else Pass))
      && (result != Pass ==>
            outcome == result && toc.chapterNames == Collecting(m) &&
            toc.state == (if |texts| == |keys| - 1 then Stopped else Started))
  {
    outcome := toc.Begin();
    if outcome.Fail? {
      return;
    }
    var items := toc.ChapterItems();
    ghost var keys := Keys(toc.pivots);
    if |items| == 0 {
      toc.Finish();
      return Pass;
    }
    if !IsLatin1(toc.prefix) {
      return Fail(ValueError);
    }
    ghost var names := NameList(toc.prefix, keys);
    forall j | 0 <= j < |items|
      ensures items[j].0 == keys[j] && IsLatin1(items[j].1) && Encode(items[j].1) == names[j]
    {
      NameLatin1(toc.prefix, keys[j]);
    }
    outcome := ReadNames(data, eol, toc, items, keys, names);
  }

  /**
   * The loop of `read_table_of_contents` over the generator's items once
   * it has started, with the keys and the encoded names of the items.
   */
  method ReadNames(data: seq<Byte>, eol: seq<Byte>, toc: TableOfContents, items: seq<(int, string)>,
                   ghost keys: seq<int>, ghost names: seq<seq<Byte>>) returns (outcome: Outcome)
    requires toc.Valid() && toc.state == Started && toc.chapterNames == Collecting(map[])
    requires 0 < |items| == |keys| == |names|
    requires forall j :: 0 <= j < |items| ==>
      items[j].0 == keys[j] && IsLatin1(items[j].1) && Encode(items[j].1) == names[j]
    modifies toc
    ensures toc.Valid()
    ensures ReadEnds(keys, TocScan(data, eol, names, 0, 0), toc.state, toc.chapterNames, outcome)
  {
    ghost var whole := TocScan(data, eol, names, 0, 0);
    ghost var done: seq<string> := [];
    var start: nat := 0;
    var i := 0;
    assert [] + whole.0 == whole.0;
    while i < |items| - 1
      invariant 0 <= i < |items| && start <= |data| && |done| == i
      invariant toc.Valid() && toc.state == Started
      invariant toc.chapterNames == Collecting(Assign(keys, done))
      invariant ScanFrom(data, eol, names, i, start, done, whole)
    {
      var end, text := ReadNextName(data, eol, toc, items[i], items[i + 1].1, keys, names, start, done, whole);
      if end.None? {
        ReadEndsEarly(keys, done);
        return Fail(EOFError);
      }
      done := done + [text];
      start := end.value;
      i := i + 1;
    }
    outcome := ReadLastName(data, eol, toc, items[i], keys, names, start, done, whole);
  }

  /**
   * A round of `read_table_of_contents` before the last: the item's text
   * runs up to the next item's name; if found, its cleaned form `text` is
   * stored and the scan goes on from `end`.
   */
  method ReadNextName(data: seq<Byte>, eol: seq<Byte>, toc: TableOfContents, item: (int, string), next: string,
                      ghost keys: seq<int>, ghost names: seq<seq<Byte>>, start: nat,
                      ghost done: seq<string>, ghost whole: (seq<string>, Outcome))
    returns (end: Option<nat>, ghost text: string)
    requires |done| + 1 < |keys| == |names|
    requires toc.Valid() && toc.state == Started && toc.chapterNames == Collecting(Assign(keys, done))
    requires IsLatin1(item.1) && IsLatin1(next)
    requires item.0 == keys[|done|] && Encode(item.1) == names[|done|] && Encode(next) == names[|done| + 1]
    requires ScanFrom(data, eol, names, |done|, start, done, whole)
    modifies toc
    ensures toc.Valid() && toc.state == Started
    ensures end.None? ==> whole == (done, Fail(EOFError)) && toc.chapterNames == old(toc.chapterNames)
    ensures end.Some? ==>
      && ScanFrom(data, eol, names, |done| + 1, end.value, done + [text], whole)
      && toc.chapterNames == Collecting(Assign(keys, done + [text]))
  {
    var found := ReadRound(data, eol, names, |done|, start, Encode(item.1), Encode(next), done, whole);
    if found.None? {
      return None, "";
    }
    var (stop, raw) := found.value;
    AssignSnoc(keys, done, Clean(raw));
    var stored := toc.SetItem(item.0, raw);
    end, text := Some(stop), Clean(raw);
  }

  /**
   * The end of `read_table_of_contents`: the generator is exhausted, so
   * the table stops, and the last item's text, if found, is stored, which
   * locks the table.
   */
  method ReadLastName(data: seq<Byte>, eol: seq<Byte>, toc: TableOfContents, item: (int, string),
                      ghost keys: seq<int>, ghost names: seq<seq<Byte>>, start: nat,
                      ghost done: seq<string>, ghost whole: (seq<string>, Outcome)) returns (outcome: Outcome)
    requires 0 < |keys| == |names| && |done| == |keys| - 1 && start <= |data|
    requires toc.Valid() && toc.state == Started && toc.chapterNames == Collecting(Assign(keys, done))
    requires item.0 == keys[|done|] && IsLatin1(item.1) && Encode(item.1) == names[|done|]
    requires ScanFrom(data, eol, names, |done|, start, done, whole)
    modifies toc
    ensures toc.Valid() && ReadEnds(keys, whole, toc.state, toc.chapterNames, outcome)
  {
    toc.Finish();
    var found := ReadRound(data, eol, names, |done|, start, Encode(item.1), eol, done, whole);
    if found.None? {
      return Fail(EOFError);
    }
    var (end, text) := found.value;
    AssignSnoc(keys, done, Clean(text));
    outcome := toc.SetItem(item.0, text);
  }

  /**
   * The table after the read `whole` of the names of `keys`: a full read
   * locks it with the frozen names; a failed one leaves the texts found
   * collected, and the table stopped only when the last round failed.
   */
  ghost predicate ReadEnds(keys: seq<int>, whole: (seq<string>, Outcome), state: TocState,
                           chapterNames: ChapterNames, outcome: Outcome)
  {
    var (texts, result) := whole;
    && |texts| <= |keys|
    && var m := Assign(keys, texts);
    && (result == Pass ==>
          state == Locked && chapterNames == Freeze(m) &&
          outcome == (if Freeze(m).Poisoned? then Fail(ValueError) else Pass))
    && (result != Pass ==>
          outcome == result && chapterNames == Collecting(m) &&
          state == (if |texts| == |keys| - 1 then Stopped else Started))
  }

  /** A read that fails before its last round leaves the table started with the texts found. */
  lemma ReadEndsEarly(keys: seq<int>, done: seq<string>)
    requires |done| + 1 < |keys|
    ensures ReadEnds(keys, (done, Fail(EOFError)), Started, Collecting(Assign(keys, done)), Fail(EOFError))
  {
  }

  /** `whole` is the read from the start: the texts `done` found so far, then what the scan from name `i` at `start` gives. */
  ghost predicate ScanFrom(data: seq<Byte>, eol: seq<Byte>, names: seq<seq<Byte>>, i: nat, start: nat,
                           done: seq<string>, whole: (seq<string>, Outcome))
  {
    && i <= |names| && start <= |data|
    && var rest := TocScan(data, eol, names, i, start);
       whole == (done + rest.0, rest.1)
  }

  /**
   * One round of the loop of `read_table_of_contents`, with the texts found
   * before it: a miss ends the read with them, a hit adds its cleaned text.
   */
  method ReadRound(data: seq<Byte>, eol: seq<Byte>, ghost names: seq<seq<Byte>>, ghost i: nat, start: nat,
                   bookA: seq<Byte>, bookB: seq<Byte>, ghost done: seq<string>, ghost whole: (seq<string>, Outcome))
    returns (found: Option<(nat, string)>)
    requires i < |names| && start <= |data| && bookA == names[i]
    requires bookB == if i + 1 < |names| then names[i + 1] else eol
    requires ScanFrom(data, eol, names, i, start, done, whole)
    ensures found.None? ==> whole == (done, Fail(EOFError))
    ensures found.Some? ==> found.value.0 <= |data|
    ensures found.Some? ==> ScanFrom(data, eol, names, i + 1, found.value.0, done + [Clean(found.value.1)], whole)
    ensures found.Some? && i + 1 == |names| ==> whole == (done + [Clean(found.value.1)], Pass)
  {
    found := TocStep(data, eol, bookA, bookB, start);
    if found.None? {
      TocScanMiss(data, eol, names, i, start, bookB);
      assert done + [] == done;
    } else {
      var (end, text) := found.value;
      TocScanAdvance(data, eol, names, i, start, bookB, end, text, done);
      if i + 1 == |names| {
        assert TocScan(data, eol, names, i + 1, end) == ([], Pass);
        assert (done + [Clean(text)]) + [] == done + [Clean(text)];
      }
    }
  }

  /** The read of the names of the keys `pivots` give, with `prefix`, up to `eol`. */
  function TableRead(data: seq<Byte>, eol: seq<Byte>, prefix: string, pivots: seq<PD>): (seq<string>, Outcome)
    requires IsLatin1(prefix)
  {
    TocScan(data, eol, NameList(prefix, Keys(pivots)), 0, 0)
  }

  /** The read of the names `Book 01` to `Book 66` the standard pivots give, up to `eol`. */
  function StandardRead(data: seq<Byte>, eol: seq<Byte>): (seq<string>, Outcome) {
    assert IsLatin1("Book ");
    TableRead(data, eol, "Book ", StandardPivots)
  }

  /**
   * A complete read of cleaned texts for keys that are exactly 1 to `n`
   * freezes into `n` cleaned names.
   */
  lemma ReadFreezes(keys: seq<int>, texts: seq<string>, n: nat)
    requires |texts| == |keys| == n && forall k :: k in keys <==> 1 <= k <= n
    requires forall j :: 0 <= j < |texts| ==> IsNormal(texts[j])
    ensures var names := Freeze(Assign(keys, texts));
      && names.Frozen? && |names.names| == n
      && forall k :: 0 <= k < n ==> IsNormal(names.names[k])
  {
    CompleteReadFreezes(keys, texts, n);
    forall k | k in Assign(keys, texts) ensures IsNormal(Assign(keys, texts)[k]) {
      AssignNormal(keys, texts, k);
    }
    FreezeNormal(Assign(keys, texts));
  }

  /**
   * A new table for `prefix` and `pivots` read from `data` up to `eol`,
   * when the keys are exactly 1 to `n`: the table locks with the texts
   * read exactly when the read is complete, and fails with EOFError
   * otherwise.
   */
  method ReadNewTable(data: seq<Byte>, eol: seq<Byte>, prefix: string, pivots: seq<PD>, n: nat)
    returns (r: Result<TableOfContents>)
    requires IsLatin1(prefix) && n > 0 && |Keys(pivots)| == n
    requires forall k :: k in Keys(pivots) <==> 1 <= k <= n
    ensures r.Err? ==> r.error == EOFError
    ensures var (texts, result) := TableRead(data, eol, prefix, pivots);
      && (r.Ok? <==> result == Pass)
      && (r.Ok? ==> r.value.chapterNames == Freeze(Assign(Keys(pivots), texts)))
    ensures r.Ok? ==> r.value.Valid() && r.value.state == Locked && r.value.chapterNames.Frozen?
    ensures r.Ok? ==> |r.value.chapterNames.names| == n
    ensures r.Ok? ==> forall k :: 0 <= k < n ==> IsNormal(r.value.chapterNames.names[k])
  {
    var toc := new TableOfContents(prefix, pivots);
    var outcome := ReadTableOfContents(data, eol, toc);
    var (texts, result) := TableRead(data, eol, prefix, pivots);
    if result == Pass {
      ReadFreezes(Keys(pivots), texts, n);
    }
    if outcome.Fail? {
      return Err(outcome.error);
    }
    return Ok(toc);
  }

  /**
   * `parse_book_names`: sniff the line delimiter and read the names of the
   * 66 books into a table built from the standard pivot descriptions.
   */
  method ParseBookNames(data: seq<Byte>) returns (r: Result<TableOfContents>)
    ensures SniffNextLine(data).Err? ==> r == Err(EOFError)
    ensures r.Err? ==> r.error == EOFError
    ensures SniffNextLine(data).Ok? ==>
      var (texts, result) := StandardRead(data, SniffNextLine(data).value);
      && (r.Ok? <==> result == Pass)
      && (r.Ok? ==> r.value.chapterNames == Freeze(Assign(Keys(StandardPivots), texts)))
    ensures r.Ok? ==> r.value.Valid() && r.value.state == Locked && r.value.chapterNames.Frozen?
    ensures r.Ok? ==> |r.value.chapterNames.names| == 66
    ensures r.Ok? ==> forall k :: 0 <= k < 66 ==> IsNormal(r.value.chapterNames.names[k])
  {
    var sniffed := SniffNextLine(data);
    if sniffed.Err? {
      return Err(sniffed.error);
    }
    assert IsLatin1("Book ");
    StandardKeys();
    r := ReadNewTable(data, sniffed.value, "Book ", StandardPivots, 66);
  }
}
