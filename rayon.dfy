/** The two factorials of concurrency/src/rayon.rs: a sequential `reduce` over
    `1..=num`, and rayon's parallel `reduce` with identity `1`. `BigUint` is `nat`.

    Rayon splits the range recursively at points chosen by its scheduler, folds
    every piece from the identity and multiplies the pieces' results. Which
    split points it picks is not determined by the program, so a `Plan` of
    split points is a parameter of the parallel version. */
module Rayon {
  import opened Wrappers

  /** Rust's `u32`, the argument type of both factorials. */
  type u32 = x: nat | x < 0x1_0000_0000

  /** The iterator `1..=n`, as a sequence. */
  function Upto(n: nat): (r: seq<nat>)
    ensures |r| == n
    ensures forall i :: 0 <= i < n ==> r[i] == i + 1
  {
    if n == 0 then [] else Upto(n - 1) + [n]
  }

  /** Reference definition: the product of a sequence. */
  function Product(xs: seq<nat>): nat {
    if xs == [] then 1 else xs[0] * Product(xs[1..])
  }

  /** Reference definition: the factorial. */
  function Fact(n: nat): nat {
    if n == 0 then 1 else n * Fact(n - 1)
  }

  /** `Iterator::fold(acc, |acc, x| acc * x)`. */
  function Fold(acc: nat, xs: seq<nat>): nat
    decreases xs
  {
    if xs == [] then acc else Fold(acc * xs[0], xs[1..])
  }

  /** `Iterator::reduce(|acc, x| acc * x)`: None on an empty iterator, otherwise
      the fold of the rest starting from the first element. */
  function Reduce(xs: seq<nat>): (r: Option<nat>)
    ensures r.None? <==> xs == []
  {
    if xs == [] then None else Some(Fold(xs[0], xs[1..]))
  }

  /** `factorial`: 1 for 0 and 1, and otherwise the reduce of `1..=num`, whose
      `unwrap` is verified not to fail. */
  function Factorial(num: u32): nat {
    if num in [0, 1] then 1 else Reduce(Upto(num)).value
  }

  /** How rayon splits a piece: not at all, or at an offset into two pieces that
      are split further. An offset past the end of the piece splits off nothing. */
  datatype Plan = Whole | Split(at: nat, left: Plan, right: Plan)

  /** Rayon's `reduce(|| 1, |acc, x| acc * x)` over `xs` split by `p`. */
  function ParallelReduce(xs: seq<nat>, p: Plan): nat
    decreases p
  {
    match p
    case Whole => Fold(1, xs)
    case Split(at, left, right) =>
      var k := if at <= |xs| then at else |xs|;
      ParallelReduce(xs[..k], left) * ParallelReduce(xs[k..], right)
  }

  /** `multi_threaded_factorial`, under the splitting `p` the scheduler chose. */
  function MultiThreadedFactorial(num: u32, p: Plan): nat {
    if num in [0, 1] then 1 else ParallelReduce(Upto(num), p)
  }

  // ---------------------------------------------------------------------------
  // Lemmas

  lemma {:induction false} ProductAppend(xs: seq<nat>, ys: seq<nat>)
    ensures Product(xs + ys) == Product(xs) * Product(ys)
  {
    if xs == [] {
      assert xs + ys == ys;
    } else {
      assert (xs + ys)[1..] == xs[1..] + ys;
      ProductAppend(xs[1..], ys);
      assert Product(xs + ys) == xs[0] * (Product(xs[1..]) * Product(ys));
    }
  }

  /** Folding from `acc` multiplies `acc` by the product: multiplication is associative. */
  lemma {:induction false} FoldIsProduct(acc: nat, xs: seq<nat>)
    ensures Fold(acc, xs) == acc * Product(xs)
    decreases xs
  {
    if xs != [] {
      FoldIsProduct(acc * xs[0], xs[1..]);
      assert acc * xs[0] * Product(xs[1..]) == acc * (xs[0] * Product(xs[1..]));
    }
  }

  /** A reduce without identity over a non-empty sequence is its product. */
  lemma ReduceIsProduct(xs: seq<nat>)
    requires xs != []
    ensures Reduce(xs) == Some(Product(xs))
  {
    FoldIsProduct(xs[0], xs[1..]);
  }

  lemma {:induction false} ProductUpto(n: nat)
    ensures Product(Upto(n)) == Fact(n)
  {
    if n > 0 {
      ProductUpto(n - 1);
      ProductAppend(Upto(n - 1), [n]);
      assert Product([n]) == n;
    }
  }

  /** `factorial` computes the factorial, for every argument including 0 and 1. */
  lemma FactorialIsFact(num: u32)
    ensures Factorial(num) == Fact(num)
    ensures Factorial(num) == Product(Upto(num))
  {
    ProductUpto(num);
    if num !in [0, 1] {
      ReduceIsProduct(Upto(num));
    } else {
      assert Fact(1) == 1;
    }
  }

  /** The base cases and the recurrence `n! == n * (n-1)!`. */
  lemma FactorialRecurrence(num: u32)
    ensures Factorial(0) == 1 && Factorial(1) == 1
    ensures num >= 1 ==> Factorial(num) == num * Factorial(num - 1)
  {
    FactorialIsFact(0);
    FactorialIsFact(1);
    FactorialIsFact(num);
    if num >= 1 {
      FactorialIsFact(num - 1);
    }
  }

  lemma {:induction false} FactPositive(n: nat)
    ensures Fact(n) >= 1
  {
    if n > 0 {
      FactPositive(n - 1);
    }
  }

  /** `factorial` is at least 1 for every argument. */
  lemma FactorialPositive(num: u32)
    ensures Factorial(num) >= 1
  {
    FactorialIsFact(num);
    FactPositive(num);
  }

  /** However rayon splits the sequence into pieces, folding each piece from the
      identity 1 and multiplying the results gives the product. */
  lemma {:induction false} ParallelReduceIsProduct(xs: seq<nat>, p: Plan)
    ensures ParallelReduce(xs, p) == Product(xs)
    decreases p
  {
    match p
    case Whole =>
      FoldIsProduct(1, xs);
    case Split(at, left, right) =>
      var k := if at <= |xs| then at else |xs|;
      ParallelReduceIsProduct(xs[..k], left);
      ParallelReduceIsProduct(xs[k..], right);
      ProductAppend(xs[..k], xs[k..]);
      assert xs[..k] + xs[k..] == xs;
  }

  /** The parallel factorial equals the sequential one, whatever the splitting. */
  lemma MultiThreadedIsSequential(num: u32, p: Plan)
    ensures MultiThreadedFactorial(num, p) == Factorial(num)
  {
    FactorialIsFact(num);
    ParallelReduceIsProduct(Upto(num), p);
  }
}
