/**
 * The numbered scripts of lab 2: the larger of two values, the largest of
 * three, a length, a sum, a product and a reversal.
 */
module SimpleScripts {
  import opened Wrappers
  import opened Sequences
  import opened SimpleFunctions

  /** `function_1(a, b)`: the larger value, `a` on a tie. */
  function Function1(a: int, b: int): (r: int)
    ensures r >= a && r >= b
    ensures r == a || r == b
  {
    if a >= b then a else b
  }

  /**
   * `function_2(a, b, c)` as written: `b` as soon as it beats `a`, else
   * `c` if that beats `a`, else nothing at all (`None`).
   */
  function Function2(a: int, b: int, c: int): (r: Option<int>)
    ensures r.None? <==> a >= b && a >= c
    ensures r.Some? ==> r.value > a && (r.value == b || r.value == c)
  {
    if b > a then Some(b)
    else if c > a then Some(c)
    else None
  }

  /**
   * Where `function_2` misses the largest value: nothing when `a` is the
   * largest, and `b` when `c` is larger still.
   */
  lemma Function2Misses()
    ensures Function2(3, 2, 1) == None
    ensures Function2(1, 2, 3) == Some(2) && MaxOfThree(1, 2, 3) == 3
  {
  }

  /**
   * `function_2` as its docstring and its `largest` variable intend: keep
   * the largest value seen so far and return it.
   */
  function LargestOfThree(a: int, b: int, c: int): (r: int)
    ensures r >= a && r >= b && r >= c
    ensures r == a || r == b || r == c
  {
    var largest := a;
    var largest := if b > largest then b else largest;
    if c > largest then c else largest
  }

  /** `function_3(my_name)`: one count per character. */
  method Function3(myName: string) returns (counter: nat)
    ensures counter == |myName|
  {
    counter := 0;
    for k := 0 to |myName|
      invariant counter == k
    {
      counter := counter + 1;
    }
  }

  /** `function_4(my_list)`: the built-in `sum`. */
  function Function4(myList: seq<int>): int {
    Sum(myList)
  }

  /** `function_5(my_list)`. */
  method Function5(myList: seq<int>) returns (product: int)
    ensures product == Product(myList)
  {
    product := 1;
    for k := 0 to |myList|
      invariant product == Product(myList[..k])
    {
      assert myList[..k + 1][..k] == myList[..k];
      product := product * myList[k];
    }
    assert myList[..|myList|] == myList;
  }

  /** `function_6(text)`: appends the characters from the last one down. */
  method Function6(text: string) returns (reversedString: string)
    ensures reversedString == Reverse(text)
  {
    reversedString := "";
    for items := 1 to |text| + 1
      invariant reversedString == Reverse(text[|text| - (items - 1)..])
    {
      var rest := text[|text| - items..];
      assert rest == [text[|text| - items]] + text[|text| - (items - 1)..];
      reversedString := reversedString + [text[|text| - items]];
    }
    assert text[0..] == text;
  }

  /** `list(range(lo, hi))`. */
  function Range(lo: int, hi: int): (s: seq<int>)
    ensures |s| == if lo <= hi then hi - lo else 0
    ensures forall i :: 0 <= i < |s| ==> s[i] == lo + i
    decreases hi - lo
  {
    if lo >= hi then [] else Range(lo, hi - 1) + [hi - 1]
  }

  /** The sum of `1` to `n`, as `function_4(list(range(1, n + 1)))` gives it. */
  lemma {:induction false} SumToN(n: nat)
    ensures 2 * Function4(Range(1, n + 1)) == n * (n + 1)
  {
    if n > 0 {
      SumToN(n - 1);
      var s := Range(1, n + 1);
      assert s[..|s| - 1] == Range(1, n);
      assert Function4(s) == Function4(Range(1, n)) + n;
      assert (n - 1) * n + 2 * n == n * (n + 1);
    }
  }

  function Factorial(n: nat): nat {
    if n == 0 then 1 else n * Factorial(n - 1)
  }

  /** The product of `1` to `n` is `n!`. */
  lemma {:induction false} ProductToN(n: nat)
    ensures Product(Range(1, n + 1)) == Factorial(n)
  {
    if n > 0 {
      ProductToN(n - 1);
      var front := Range(1, n);
      assert Range(1, n + 1) == front + [n];
      assert (front + [n])[..|front|] == front;
      assert Product(front + [n]) == Factorial(n - 1) * n;
    }
  }
}
