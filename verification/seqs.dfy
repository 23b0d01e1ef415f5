/** Small value types and integer-sequence facts shared by the points model. */
module Seqs {

  /** `None` stands for JavaScript's `null`/`NaN` outcomes, `Some` for a present value. */
  datatype Option<+T> = None | Some(value: T)

  /** A value, or the error a JavaScript handler would have thrown. */
  datatype Result<+T, +E> = Ok(value: T) | Err(error: E)

  function Min(a: int, b: int): int {
    if a <= b then a else b
  }

  function MinReal(a: real, b: real): real {
    if a <= b then a else b
  }

  /** Sum of a sequence, taken from the front. */
  function Sum(xs: seq<int>): int {
    if |xs| == 0 then 0 else xs[0] + Sum(xs[1..])
  }

  /** `xs.reduce((sum, x) => sum + x, 0)`: the accumulator absorbs elements left to right,
      so the last element is added last. */
  function Reduce(xs: seq<int>): int {
    if |xs| == 0 then 0 else Reduce(xs[..|xs| - 1]) + xs[|xs| - 1]
  }

  /** `n` copies of `v`. */
  function Repeat(v: int, n: nat): (r: seq<int>)
    ensures |r| == n
    ensures forall i :: 0 <= i < n ==> r[i] == v
  {
    if n == 0 then [] else [v] + Repeat(v, n - 1)
  }

  /** The first `n` elements, or all of them when there are fewer (`slice(0, n)`). */
  function Take(xs: seq<int>, n: nat): (r: seq<int>)
    ensures |r| == Min(n, |xs|)
    ensures r == xs[..|r|]
  {
    if n <= |xs| then xs[..n] else xs
  }

  lemma {:induction false} SumAppend(a: seq<int>, b: seq<int>)
    ensures Sum(a + b) == Sum(a) + Sum(b)
  {
    if |a| == 0 {
      assert a + b == b;
    } else {
      assert (a + b)[1..] == a[1..] + b;
      SumAppend(a[1..], b);
    }
  }

  /** Summing left to right (`reduce`) and from the front agree on every sequence. */
  lemma {:induction false} ReduceIsSum(xs: seq<int>)
    ensures Reduce(xs) == Sum(xs)
  {
    if |xs| > 0 {
      var init := xs[..|xs| - 1];
      ReduceIsSum(init);
      assert xs == init + [xs[|xs| - 1]];
      SumAppend(init, [xs[|xs| - 1]]);
    }
  }

  /** Replacing one element changes the sum by exactly the difference. */
  lemma {:induction false} SumUpdate(xs: seq<int>, i: nat, v: int)
    requires i < |xs|
    ensures Sum(xs[i := v]) == Sum(xs) - xs[i] + v
  {
    if i == 0 {
      assert xs[i := v][1..] == xs[1..];
    } else {
      assert xs[i := v][1..] == xs[1..][i - 1 := v];
      SumUpdate(xs[1..], i - 1, v);
    }
  }

  /** The total does not depend on the order of the entries. */
  lemma {:induction false} SumPermutation(a: seq<int>, b: seq<int>)
    requires multiset(a) == multiset(b)
    ensures Sum(a) == Sum(b)
    decreases |a|
  {
    if |a| == 0 {
      assert |b| == |multiset(b)| == 0;
    } else {
      assert a[0] in multiset(b);
      var k :| 0 <= k < |b| && b[k] == a[0];
      var rest := b[..k] + b[k + 1..];
      assert a == [a[0]] + a[1..];
      assert multiset(a[1..]) == multiset(a) - multiset{a[0]};
      MultisetWithout(b, k);
      SumPermutation(a[1..], rest);
      SumWithout(b, k);
    }
  }

  lemma MultisetWithout(b: seq<int>, k: nat)
    requires k < |b|
    ensures multiset(b[..k] + b[k + 1..]) == multiset(b) - multiset{b[k]}
  {
    assert b == b[..k] + [b[k]] + b[k + 1..];
  }

  lemma SumWithout(b: seq<int>, k: nat)
    requires k < |b|
    ensures Sum(b) == b[k] + Sum(b[..k] + b[k + 1..])
  {
    var front, back := b[..k], b[k + 1..];
    assert b[..k + 1] == front + [b[k]];
    assert b == b[..k + 1] + back;
    SumAppend(b[..k + 1], back);
    SumAppend(front, [b[k]]);
    SumSingle(b[k]);
    SumAppend(front, back);
  }

  lemma SumSingle(x: int)
    ensures Sum([x]) == x
  {
    assert [x][1..] == [];
  }

  lemma {:induction false} SumRepeat(v: int, n: nat)
    ensures Sum(Repeat(v, n)) == v * n
  {
    if n > 0 {
      assert Repeat(v, n)[1..] == Repeat(v, n - 1);
      SumRepeat(v, n - 1);
    }
  }

  /** A sequence whose elements are all at most `c` sums to at most `c` per element. */
  lemma {:induction false} SumAtMost(xs: seq<int>, c: int)
    requires forall i :: 0 <= i < |xs| ==> xs[i] <= c
    ensures Sum(xs) <= c * |xs|
  {
    if |xs| > 0 {
      SumAtMost(xs[1..], c);
    }
  }
}
