/**
 * Counting with a dictionary, as `char_freq` and the word counter of the
 * hapax script do: each element seen for the first time gets count one,
 * each later sighting adds one.
 */
module Counting {

  /** How many times `x` occurs in `s`. */
  function Count<T(==,!new)>(s: seq<T>, x: T): (n: nat)
    ensures n <= |s|
    ensures n > 0 <==> x in s
  {
    if s == [] then 0
    else
      var front := s[..|s| - 1];
      assert s == front + [s[|s| - 1]];
      Count(front, x) + (if s[|s| - 1] == x then 1 else 0)
  }

  /**
   * The dictionary the counting loop leaves after `s`: a key for each
   * distinct element, holding its number of occurrences.
   */
  function Tally<T(==)>(s: seq<T>): map<T, nat> {
    if s == [] then map[]
    else
      var m := Tally(s[..|s| - 1]);
      var x := s[|s| - 1];
      m[x := if x in m then m[x] + 1 else 1]
  }

  /** The keys are exactly the elements, each holding its number of occurrences. */
  lemma {:induction false} TallyCounts<T(!new)>(s: seq<T>)
    ensures forall x :: x in Tally(s) <==> x in s
    ensures forall x :: x in Tally(s) ==> Tally(s)[x] == Count(s, x) >= 1
  {
    if s != [] {
      var front := s[..|s| - 1];
      assert s == front + [s[|s| - 1]];
      TallyCounts(front);
    }
  }

  /** One more element: its count goes up by one, or starts at one. */
  lemma TallySnoc<T(!new)>(s: seq<T>, x: T)
    ensures Tally(s + [x]) == Tally(s)[x := if x in Tally(s) then Tally(s)[x] + 1 else 1]
  {
    assert (s + [x])[..|s|] == s;
  }

  /** The sum of the values of `m`. */
  ghost function Total<T(!new)>(m: map<T, nat>): nat
    decreases |m|
  {
    if m == map[] then 0
    else
      var k :| k in m;
      m[k] + Total(m - {k})
  }

  /** The sum can start from any key. */
  lemma {:induction false} TotalRemove<T(!new)>(m: map<T, nat>, k: T)
    requires k in m
    ensures Total(m) == m[k] + Total(m - {k})
    decreases |m|
  {
    var j :| j in m && Total(m) == m[j] + Total(m - {j});
    if j != k {
      TotalRemove(m - {j}, k);
      TotalRemove(m - {k}, j);
      assert m - {j} - {k} == m - {k} - {j};
    }
  }

  /** Counting one more sighting of `x` adds one to the sum. */
  lemma TotalBump<T(!new)>(m: map<T, nat>, x: T)
    ensures Total(m[x := if x in m then m[x] + 1 else 1]) == Total(m) + 1
  {
    var m' := m[x := if x in m then m[x] + 1 else 1];
    TotalRemove(m', x);
    if x in m {
      TotalRemove(m, x);
      assert m' - {x} == m - {x};
    } else {
      assert m' - {x} == m;
    }
  }

  /** The counts add up to the number of elements counted. */
  lemma {:induction false} TallyTotal<T(!new)>(s: seq<T>)
    ensures Total(Tally(s)) == |s|
  {
    if s != [] {
      var front := s[..|s| - 1];
      TallyTotal(front);
      TotalBump(Tally(front), s[|s| - 1]);
    }
  }

  /** The number of keys whose count is exactly one. */
  function Hapaxes<T(!new)>(m: map<T, nat>): nat {
    |set k | k in m && m[k] == 1|
  }
}
