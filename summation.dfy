/** Finite sums of real sequences and the recurrence behind the binomial
    theorem, stated for any pair of sequences. */
module Summation {
  /** The sum of `f(0)`, ..., `f(k - 1)`. */
  function Sum(k: nat, f: nat -> real): real {
    if k == 0 then 0.0 else Sum(k - 1, f) + f(k - 1)
  }

  /** Sums of two sequences related by `f(i) == a * g(i - 1) + b * g(i)`:
      the first `k` values of `f` add up to `a` times the first `k - 1`
      values of `g` plus `b` times its first `k`. The sums are passed in as
      `s`, `e` and `e'`. */
  lemma {:induction false} SumRecurrence(k: nat, f: nat -> real, g: nat -> real, a: real, b: real, s: real, e: real, e': real)
    requires k >= 1
    requires f(0) == b * g(0)
    requires forall i: nat {:trigger f(i)} :: 1 <= i < k ==> f(i) == a * g(i - 1) + b * g(i)
    requires s == Sum(k, f) && e == Sum(k - 1, g) && e' == Sum(k, g)
    ensures s == a * e + b * e'
  {
    if k == 1 {
      Recombine(s, 0.0, f(0), 0.0, 0.0, 0.0, g(0), a, b, e, e');
    } else {
      var x, e2 := Sum(k - 1, f), Sum(k - 2, g);
      SumRecurrence(k - 1, f, g, a, b, x, e2, e);
      RecurrenceStep(k, f, g, a, b, s, e, e', x, e2);
    }
  }

  lemma RecurrenceStep(k: nat, f: nat -> real, g: nat -> real, a: real, b: real, s: real, e: real, e': real, x: real, e2: real)
    requires k >= 2
    requires f(k - 1) == a * g(k - 2) + b * g(k - 1)
    requires s == Sum(k, f) && e == Sum(k - 1, g) && e' == Sum(k, g)
    requires x == Sum(k - 1, f) && e2 == Sum(k - 2, g) && x == a * e2 + b * e
    ensures s == a * e + b * e'
  {
    Recombine(s, x, f(k - 1), e2, g(k - 2), e, g(k - 1), a, b, e, e');
  }

  /** When `f` follows `g` by the recurrence and `g` vanishes past its first
      `k` values, one more term of `f` sums to `(a + b)` times the sum of `g`. */
  lemma SumOfRecurrence(k: nat, f: nat -> real, g: nat -> real, a: real, b: real, s: real, p: real)
    requires f(0) == b * g(0)
    requires forall i: nat {:trigger f(i)} :: 1 <= i < k + 1 ==> f(i) == a * g(i - 1) + b * g(i)
    requires g(k) == 0.0 && Sum(k, g) == p && Sum(k + 1, f) == s
    ensures s == (a + b) * p
  {
    var e' := Sum(k + 1, g);
    SumRecurrence(k + 1, f, g, a, b, s, p, e');
    Collect(s, p, e', g(k), a, b);
  }

  lemma Collect(s: real, e: real, e': real, t: real, a: real, b: real)
    requires s == a * e + b * e' && e' == e + t && t == 0.0
    ensures s == (a + b) * e
  {
  }

  /** Two sums split the same way add up split that way. */
  lemma Recombine(s: real, x: real, y: real, e2: real, t2: real, e1: real, t1: real, a: real, b: real, u: real, v: real)
    requires s == x + y
    requires x == a * e2 + b * e1 && y == a * t2 + b * t1
    requires u == e2 + t2 && v == e1 + t1
    ensures s == a * u + b * v
  {
  }

  /** A sum of `w`-multiples is `w` times the sum: `s` and `e` are the sums
      of the first `k` values of `f` and of `g`. */
  lemma {:induction false} SumScale(k: nat, f: nat -> real, g: nat -> real, w: real, s: real, e: real)
    requires forall i: nat {:trigger f(i)} :: i < k ==> f(i) == w * g(i)
    requires s == Sum(k, f) && e == Sum(k, g)
    ensures s == w * e
  {
    if k > 0 {
      var s', e' := Sum(k - 1, f), Sum(k - 1, g);
      SumScale(k - 1, f, g, w, s', e');
      ScaleStep(s, s', f(k - 1), e, e', g(k - 1), w);
    }
  }

  lemma ScaleStep(s: real, s': real, a: real, e: real, e': real, b: real, w: real)
    requires s == s' + a && e == e' + b && s' == w * e' && a == w * b
    ensures s == w * e
  {
  }

  /** Sequences that agree on their first `k` values have equal sums `s`
      and `e` there. */
  lemma {:induction false} SumAgree(k: nat, f: nat -> real, g: nat -> real, s: real, e: real)
    requires forall i: nat {:trigger f(i)} :: i < k ==> f(i) == g(i)
    requires s == Sum(k, f) && e == Sum(k, g)
    ensures s == e
  {
    if k > 0 {
      SumAgree(k - 1, f, g, Sum(k - 1, f), Sum(k - 1, g));
    }
  }
}
