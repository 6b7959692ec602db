/**
 * The read-only view of the Bible text file that both scanning passes of
 * lab7/4-exercies-two-edged-sword.py work on: the memory-mapped file is a
 * sequence of bytes, `mmap.find` is `Find`, and Latin-1 decoding maps each
 * byte to the character with the same code.  Also the module-level helper
 * `clean` and the line-delimiter sniffer.
 */
module BibleText {
  import opened Wrappers
  import opened Text

  newtype Byte = b: int | 0 <= b < 256

  /** Text that the Latin-1 codec can encode. */
  predicate IsLatin1(s: string) {
    forall i :: 0 <= i < |s| ==> s[i] as int < 256
  }

  /** `bytes.decode('latin_1')`: each byte becomes the character with that code. */
  function Decode(bs: seq<Byte>): (s: string)
    ensures |s| == |bs| && IsLatin1(s)
    ensures forall i :: 0 <= i < |bs| ==> s[i] as int == bs[i] as int
  {
    seq(|bs|, i requires 0 <= i < |bs| => bs[i] as int as char)
  }

  /** `str.encode('latin_1')` for text the codec accepts. */
  function Encode(s: string): (bs: seq<Byte>)
    requires IsLatin1(s)
    ensures |bs| == |s|
    ensures forall i :: 0 <= i < |s| ==> bs[i] as int == s[i] as int
  {
    seq(|s|, i requires 0 <= i < |s| => s[i] as int as Byte)
  }

  lemma Latin1Concat(s: string, t: string)
    requires IsLatin1(s) && IsLatin1(t)
    ensures IsLatin1(s + t)
  {
  }

  /** Latin-1 decoding inverts encoding. */
  lemma DecodeEncode(s: string)
    requires IsLatin1(s)
    ensures Decode(Encode(s)) == s
  {
  }

  /** Latin-1 encoding inverts decoding. */
  lemma EncodeDecode(bs: seq<Byte>)
    ensures Encode(Decode(bs)) == bs
  {
  }

  /** `needle` occurs in `hay` starting at index `i`. */
  predicate OccursAt(hay: seq<Byte>, needle: seq<Byte>, i: int) {
    0 <= i && i + |needle| <= |hay| && hay[i..i + |needle|] == needle
  }

  /** `needle` occurs somewhere in `hay`. */
  ghost predicate Contains(hay: seq<Byte>, needle: seq<Byte>) {
    exists i :: OccursAt(hay, needle, i)
  }

  /**
   * `mmap.find(needle, from)`: the lowest index at or after `from` where
   * `needle` occurs, or -1 when there is none.
   */
  function Find(hay: seq<Byte>, needle: seq<Byte>, from: nat): (r: int)
    ensures r == -1 || (from <= r && OccursAt(hay, needle, r))
    ensures r == -1 ==> forall i :: from <= i ==> !OccursAt(hay, needle, i)
    ensures r != -1 ==> forall i :: from <= i < r ==> !OccursAt(hay, needle, i)
    decreases |hay| - from
  {
    if from + |needle| > |hay| then -1
    else if OccursAt(hay, needle, from) then from
    else Find(hay, needle, from + 1)
  }

  /** Searching from the start finds something exactly when the needle occurs at all. */
  lemma FindFromStart(hay: seq<Byte>, needle: seq<Byte>)
    ensures Find(hay, needle, 0) >= 0 <==> Contains(hay, needle)
  {
    if Contains(hay, needle) {
      var i :| OccursAt(hay, needle, i);
      assert 0 <= i;
    }
  }

  const CR: Byte := 13
  const LF: Byte := 10

  /**
   * `sniff_next_line`: the first of `\r\n`, `\r` and `\n` that occurs
   * anywhere in the file, tried in that order; EOFError when none occurs.
   */
  function SniffNextLine(data: seq<Byte>): (r: Result<seq<Byte>>)
    ensures r == Ok([CR, LF]) <==> Contains(data, [CR, LF])
    ensures r == Ok([CR]) <==> !Contains(data, [CR, LF]) && Contains(data, [CR])
    ensures r == Ok([LF]) <==> !Contains(data, [CR, LF]) && !Contains(data, [CR]) && Contains(data, [LF])
    ensures r == Err(EOFError) <==> !Contains(data, [CR]) && !Contains(data, [LF])
  {
    FindFromStart(data, [CR, LF]);
    FindFromStart(data, [CR]);
    FindFromStart(data, [LF]);
    CrLfContainsCr(data);
    if Find(data, [CR, LF], 0) >= 0 then Ok([CR, LF])
    else if Find(data, [CR], 0) >= 0 then Ok([CR])
    else if Find(data, [LF], 0) >= 0 then Ok([LF])
    else Err(EOFError)
  }

  /** A file holding `\r\n` holds `\r`. */
  lemma CrLfContainsCr(data: seq<Byte>)
    ensures Contains(data, [CR, LF]) ==> Contains(data, [CR])
  {
    if Contains(data, [CR, LF]) {
      var i :| OccursAt(data, [CR, LF], i);
      assert data[i] == data[i..i + 2][0] == CR;
      assert data[i..i + 1] == [CR];
      assert OccursAt(data, [CR], i);
    }
  }

  /** `clean`: the whitespace-separated words of `text` joined by single spaces. */
  function Clean(text: string): string {
    Join(Split(text))
  }

  /**
   * What `clean` promises: no leading or trailing whitespace, single spaces
   * only, the same words as the input, and nothing left to clean.
   */
  lemma CleanNormalizes(text: string)
    ensures IsNormal(Clean(text))
    ensures Split(Clean(text)) == Split(text)
    ensures Clean(Clean(text)) == Clean(text)
    ensures |Clean(text)| == 0 <==> Split(text) == []
  {
    JoinNormal(Split(text));
    SplitJoin(Split(text));
  }
}
