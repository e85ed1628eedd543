/** Python's bitwise | and & on integers of any sign: two's complement with
    the sign bit repeated without end, computed one low bit at a time. */
module PyBits {

  /** 0 and -1 are the two numbers whose bits are all equal. */
  predicate Uniform(x: int) {
    x == 0 || x == -1
  }

  function Size(x: int): nat {
    if Uniform(x) then 0 else if x < 0 then -x else x
  }

  lemma HalfSmaller(x: int)
    ensures Size(x / 2) <= Size(x)
    ensures !Uniform(x) ==> Size(x / 2) < Size(x)
  {
  }

  /** a | b */
  function PyOr(a: int, b: int): int
    decreases Size(a) + Size(b)
  {
    if Uniform(a) && Uniform(b) then (if a == -1 || b == -1 then -1 else 0)
    else
      HalfSmaller(a);
      HalfSmaller(b);
      2 * PyOr(a / 2, b / 2) + (if a % 2 == 1 || b % 2 == 1 then 1 else 0)
  }

  /** a & b */
  function PyAnd(a: int, b: int): int
    decreases Size(a) + Size(b)
  {
    if Uniform(a) && Uniform(b) then (if a == -1 && b == -1 then -1 else 0)
    else
      HalfSmaller(a);
      HalfSmaller(b);
      2 * PyAnd(a / 2, b / 2) + (if a % 2 == 1 && b % 2 == 1 then 1 else 0)
  }

  /** A | B has every bit of A, so for non-negative numbers it is at least
      each of them; & has only common bits, so it is at most each. */
  lemma {:induction false} OrAndBounds(a: nat, b: nat)
    ensures PyOr(a, b) >= a && PyOr(a, b) >= b
    ensures 0 <= PyAnd(a, b) <= a && PyAnd(a, b) <= b
    decreases Size(a) + Size(b)
  {
    if !(Uniform(a) && Uniform(b)) {
      HalfSmaller(a);
      HalfSmaller(b);
      OrAndBounds(a / 2, b / 2);
    }
  }

  /** x | x == x */
  lemma {:induction false} OrSelf(x: int)
    ensures PyOr(x, x) == x
    decreases Size(x)
  {
    if !Uniform(x) {
      HalfSmaller(x);
      OrSelf(x / 2);
    }
  }

  /** x & 0 == 0 */
  lemma {:induction false} AndZero(x: int)
    ensures PyAnd(x, 0) == 0
    decreases Size(x)
  {
    if !Uniform(x) {
      HalfSmaller(x);
      AndZero(x / 2);
    }
  }
}
