/** Positional numerals over a base b, read two ways.

    - WeightedSum reads an array with element 0 as the LEAST significant
      digit (weight b^0): this is how a texture unit number is computed.
    - Rank reads a tuple with element 0 as the MOST significant digit: this
      is the position of the tuple in the order in which Python's
      itertools.product(range(b), repeat=n) lists tuples, where element 0
      varies slowest. ProductAt(b, n, k) is the k-th tuple of that listing.
 */
module Positional {

  /** b to the power e. */
  function Pow(b: nat, e: nat): (r: nat)
    ensures b > 0 ==> r > 0
  {
    if e == 0 then 1 else b * Pow(b, e - 1)
  }

  /** Every element of s is a digit of base b, that is, lies in range(b). */
  predicate InRange(s: seq<int>, b: nat) {
    forall i :: 0 <= i < |s| ==> 0 <= s[i] < b
  }

  /** Every element of s is non-negative. */
  predicate NonNegative(s: seq<int>) {
    forall i :: 0 <= i < |s| ==> 0 <= s[i]
  }

  /** The sum over i < |s| of b^i * s[i]. */
  function WeightedSum(s: seq<int>, b: nat): int {
    if |s| == 0 then 0 else WeightedSum(s[..|s| - 1], b) + Pow(b, |s| - 1) * s[|s| - 1]
  }

  /** The base-b digits of n, least significant first, |len| of them. */
  function Digits(n: int, b: nat, len: nat): (r: seq<int>)
    requires b > 0
    ensures |r| == len && InRange(r, b)
    decreases len
  {
    if len == 0 then [] else [n % b] + Digits(n / b, b, len - 1)
  }

  /** The k-th tuple (counting from 0) of itertools.product(range(b), repeat=n):
      the n base-b digits of k, most significant first. */
  function ProductAt(b: nat, n: nat, k: int): (r: seq<int>)
    requires b > 0
    ensures |r| == n && InRange(r, b)
  {
    if n == 0 then [] else ProductAt(b, n - 1, k / b) + [k % b]
  }

  /** The value of s as a base-b numeral whose most significant digit is s[0]. */
  function Rank(s: seq<int>, b: nat): int {
    if |s| == 0 then 0 else Rank(s[..|s| - 1], b) * b + s[|s| - 1]
  }

  /** Python's ordering of tuples: the first differing element decides, and a
      proper prefix comes first. */
  predicate LexLess(s: seq<int>, t: seq<int>) {
    if |s| == 0 then |t| > 0
    else |t| > 0 && (s[0] < t[0] || (s[0] == t[0] && LexLess(s[1..], t[1..])))
  }

  // ---------------------------------------------------------------------
  // Arithmetic helpers

  lemma MulMonotone(x: int, y: int, c: int)
    requires c >= 0 && x <= y
    ensures x * c <= y * c
  {
  }

  lemma MulSucc(x: int, c: int)
    ensures (x + 1) * c == x * c + c
  {
  }

  lemma DivMod(n: int, b: int)
    requires b > 0
    ensures n == (n / b) * b + n % b && 0 <= n % b < b
  {
  }

  lemma MulComm(x: int, y: int)
    ensures x * y == y * x
  {
  }

  lemma MulDistrib(b: int, x: int, p: int, y: int)
    ensures b * (x + p * y) == b * x + (b * p) * y
  {
  }

  lemma RankDistrib(d: int, p: int, x: int, b: int)
    ensures (d * p + x) * b == d * (b * p) + x * b
  {
  }

  lemma MulAtLeast(x: int, c: int)
    requires c > 0 && x > 0
    ensures x * c >= c
  {
  }

  /** Division by b recovers q and d from q * b + d when d is a digit. */
  lemma DivModOfDigit(q: int, d: int, b: int)
    requires b > 0 && 0 <= d < b
    ensures (q * b + d) / b == q && (q * b + d) % b == d
  {
    var n := q * b + d;
    var k := n / b - q;
    assert n == b * (n / b) + n % b;
    assert k * b == d - n % b;
    if k > 0 { MulAtLeast(k, b); }
    if k < 0 { MulAtLeast(-k, b); }
  }

  lemma DivLessThan(n: int, b: int, c: int)
    requires b > 0 && 0 <= n < b * c
    ensures 0 <= n / b < c
  {
    var q := n / b;
    assert n == q * b + n % b;
    if q >= c {
      MulMonotone(c, q, b);
    }
  }

  lemma DivDiv(n: int, b: int, c: int)
    requires n >= 0 && b > 0 && c > 0
    ensures n / b / c == n / (b * c)
  {
    var q, r := n / b, n % b;
    var q2, r2 := q / c, q % c;
    assert n == q * b + r;
    assert q == q2 * c + r2;
    assert n == q2 * (b * c) + (r2 * b + r) by {
      assert q * b == q2 * c * b + r2 * b;
    }
    MulMonotone(r2, c - 1, b);
    assert 0 <= r2 * b + r < b * c;
    DivModOfDigit(q2, r2 * b + r, b * c);
  }

  lemma PrefixOfPrefix(s: seq<int>, i: nat)
    requires i < |s|
    ensures s[..i + 1][..i] == s[..i]
  {
  }

  // ---------------------------------------------------------------------
  // The weighted sum

  /** The sum over the first i + 1 elements adds the term b^i * s[i] to the
      sum over the first i. */
  lemma WeightedSumStep(s: seq<int>, b: nat, i: nat)
    requires i < |s|
    ensures WeightedSum(s[..i + 1], b) == WeightedSum(s[..i], b) + Pow(b, i) * s[i]
  {
    PrefixOfPrefix(s, i);
  }

  /** Peeling off the least significant digit: the Horner form of the sum. */
  lemma {:induction false} WeightedSumHead(s: seq<int>, b: nat)
    requires |s| > 0
    ensures WeightedSum(s, b) == s[0] + b * WeightedSum(s[1..], b)
  {
    var n := |s|;
    if n == 1 {
      assert s[..0] == [] && s[1..] == [];
    } else {
      var init, tail := s[..n - 1], s[1..];
      WeightedSumHead(init, b);
      assert init[1..] == tail[..n - 2];
      var x, p, y := WeightedSum(tail[..n - 2], b), Pow(b, n - 2), s[n - 1];
      assert WeightedSum(init, b) == s[0] + b * x;
      assert WeightedSum(tail, b) == x + p * y;
      assert WeightedSum(s, b) == WeightedSum(init, b) + (b * p) * y;
      MulDistrib(b, x, p, y);
    }
  }

  /** Non-negative digits give a non-negative sum. */
  lemma {:induction false} WeightedSumNonNegative(s: seq<int>, b: nat)
    ensures NonNegative(s) ==> WeightedSum(s, b) >= 0
  {
    if NonNegative(s) && |s| > 0 {
      WeightedSumNonNegative(s[..|s| - 1], b);
    }
  }

  /** With non-negative digits, a longer prefix never has a smaller sum. */
  lemma {:induction false} WeightedSumPrefixMonotone(s: seq<int>, b: nat, j: nat, k: nat)
    requires NonNegative(s) && j <= k <= |s|
    ensures WeightedSum(s[..j], b) <= WeightedSum(s[..k], b)
  {
    if j < k {
      WeightedSumPrefixMonotone(s, b, j, k - 1);
      PrefixOfPrefix(s, k - 1);
      assert WeightedSum(s[..k], b) == WeightedSum(s[..k - 1], b) + Pow(b, k - 1) * s[k - 1];
    }
  }

  /** n base-b digits sum to at most b^n - 1. */
  lemma {:induction false} WeightedSumBound(s: seq<int>, b: nat)
    requires InRange(s, b)
    ensures 0 <= WeightedSum(s, b) <= Pow(b, |s|) - 1
  {
    var n := |s|;
    if n > 0 {
      WeightedSumBound(s[..n - 1], b);
      var p := Pow(b, n - 1);
      MulMonotone(0, s[n - 1], p);
      MulMonotone(s[n - 1], b - 1, p);
      assert (b - 1) * p == b * p - p;
    }
  }

  /** The array of n largest digits reaches the bound b^n - 1. */
  lemma {:induction false} WeightedSumOfLargestDigits(b: nat, n: nat)
    requires b > 0
    ensures WeightedSum(seq(n, _ => b - 1), b) == Pow(b, n) - 1
  {
    if n > 0 {
      var s := seq(n, _ => b - 1);
      assert s[..n - 1] == seq(n - 1, _ => b - 1);
      WeightedSumOfLargestDigits(b, n - 1);
      assert Pow(b, n - 1) * (b - 1) == Pow(b, n) - Pow(b, n - 1);
    }
  }

  /** Element i of the digit decomposition is (n / b^i) % b. */
  lemma {:induction false} DigitAt(n: int, b: nat, len: nat, i: nat)
    requires n >= 0 && b > 0 && i < len
    ensures Digits(n, b, len)[i] == n / Pow(b, i) % b
    decreases i
  {
    if i > 0 {
      DigitAt(n / b, b, len - 1, i - 1);
      DivDiv(n, b, Pow(b, i - 1));
    }
  }

  /** Zero has only zero digits. */
  lemma {:induction false} DigitsOfZero(b: nat, len: nat)
    requires b > 0
    ensures Digits(0, b, len) == seq(len, _ => 0)
  {
    if len > 0 {
      DigitsOfZero(b, len - 1);
      assert seq(len, _ => 0) == [0] + seq(len - 1, _ => 0);
    }
  }

  /** Decomposing then weighting gives n back, for 0 <= n < b^len. */
  lemma {:induction false} WeightedSumOfDigits(n: int, b: nat, len: nat)
    requires b > 0 && 0 <= n < Pow(b, len)
    ensures WeightedSum(Digits(n, b, len), b) == n
    decreases len
  {
    if len > 0 {
      var d := Digits(n, b, len);
      DivLessThan(n, b, Pow(b, len - 1));
      WeightedSumOfDigits(n / b, b, len - 1);
      WeightedSumHead(d, b);
      assert d[1..] == Digits(n / b, b, len - 1);
      assert WeightedSum(d, b) == n % b + b * (n / b);
      DivMod(n, b);
    }
  }

  /** Weighting then decomposing gives the in-range digits back. */
  lemma {:induction false} DigitsOfWeightedSum(s: seq<int>, b: nat)
    requires b > 0 && InRange(s, b)
    ensures Digits(WeightedSum(s, b), b, |s|) == s
  {
    if |s| > 0 {
      var rest := s[1..];
      var w, wRest := WeightedSum(s, b), WeightedSum(rest, b);
      DigitsOfWeightedSum(rest, b);
      WeightedSumHead(s, b);
      MulComm(b, wRest);
      DivModOfDigit(wRest, s[0], b);
      assert w % b == s[0] && w / b == wRest;
      assert Digits(w, b, |s|) == [s[0]] + Digits(wRest, b, |s| - 1);
      assert s == [s[0]] + rest;
    }
  }

  /** Two in-range arrays of the same length with the same sum are equal. */
  lemma WeightedSumInjective(s: seq<int>, t: seq<int>, b: nat)
    requires b > 0 && InRange(s, b) && InRange(t, b) && |s| == |t|
    requires WeightedSum(s, b) == WeightedSum(t, b)
    ensures s == t
  {
    DigitsOfWeightedSum(s, b);
    DigitsOfWeightedSum(t, b);
  }

  // ---------------------------------------------------------------------
  // The enumeration order of itertools.product

  /** Peeling off the most significant digit of a rank. */
  lemma {:induction false} RankHead(s: seq<int>, b: nat)
    requires |s| > 0
    ensures Rank(s, b) == s[0] * Pow(b, |s| - 1) + Rank(s[1..], b)
  {
    var n := |s|;
    if n == 1 {
      assert s[..0] == [] && s[1..] == [];
    } else {
      var init, tail := s[..n - 1], s[1..];
      RankHead(init, b);
      assert init[1..] == tail[..n - 2];
      var x, p, y := Rank(tail[..n - 2], b), Pow(b, n - 2), s[n - 1];
      assert Rank(init, b) == s[0] * p + x;
      assert Rank(tail, b) == x * b + y;
      assert Rank(s, b) == Rank(init, b) * b + y;
      assert Pow(b, n - 1) == b * p;
      RankDistrib(s[0], p, x, b);
    }
  }

  /** The rank of an n-tuple of digits lies in [0, b^n). */
  lemma {:induction false} RankBound(s: seq<int>, b: nat)
    requires InRange(s, b)
    ensures 0 <= Rank(s, b) < Pow(b, |s|)
  {
    var n := |s|;
    if n > 0 {
      RankBound(s[..n - 1], b);
      var r, p := Rank(s[..n - 1], b), Pow(b, n - 1);
      MulMonotone(0, r, b);
      MulMonotone(r, p - 1, b);
      assert (p - 1) * b == p * b - b;
    }
  }

  /** The k-th tuple of the enumeration has rank k. */
  lemma {:induction false} RankOfProductAt(b: nat, n: nat, k: int)
    requires b > 0 && 0 <= k < Pow(b, n)
    ensures Rank(ProductAt(b, n, k), b) == k
  {
    if n > 0 {
      var q, r := k / b, k % b;
      DivLessThan(k, b, Pow(b, n - 1));
      RankOfProductAt(b, n - 1, q);
      var t := ProductAt(b, n, k);
      assert t == ProductAt(b, n - 1, q) + [r];
      assert t[..n - 1] == ProductAt(b, n - 1, q);
      assert Rank(t, b) == q * b + r;
      DivMod(k, b);
    }
  }

  /** Every in-range tuple is listed by the enumeration, at the index given by
      its rank. */
  lemma {:induction false} ProductAtOfRank(s: seq<int>, b: nat)
    requires b > 0 && InRange(s, b)
    ensures ProductAt(b, |s|, Rank(s, b)) == s
  {
    var n := |s|;
    if n > 0 {
      var init := s[..n - 1];
      ProductAtOfRank(init, b);
      RankBound(init, b);
      DivModOfDigit(Rank(init, b), s[n - 1], b);
      assert s == init + [s[n - 1]];
    }
  }

  /** For tuples of digits of one length, Python's tuple order is the order of
      their ranks. */
  lemma {:induction false} LexLessIffRankLess(s: seq<int>, t: seq<int>, b: nat)
    requires InRange(s, b) && InRange(t, b) && |s| == |t|
    ensures LexLess(s, t) <==> Rank(s, b) < Rank(t, b)
  {
    var n := |s|;
    if n > 0 {
      var p := Pow(b, n - 1);
      RankHead(s, b);
      RankHead(t, b);
      RankBound(s[1..], b);
      RankBound(t[1..], b);
      if s[0] < t[0] {
        MulMonotone(s[0] + 1, t[0], p);
        MulSucc(s[0], p);
      } else if s[0] > t[0] {
        MulMonotone(t[0] + 1, s[0], p);
        MulSucc(t[0], p);
      } else {
        LexLessIffRankLess(s[1..], t[1..], b);
      }
    }
  }

  /** itertools.product lists the tuples in strictly increasing tuple order. */
  lemma ProductOrderIsLexOrder(b: nat, n: nat, j: nat, k: nat)
    requires b > 0 && j < k < Pow(b, n)
    ensures LexLess(ProductAt(b, n, j), ProductAt(b, n, k))
  {
    RankOfProductAt(b, n, j);
    RankOfProductAt(b, n, k);
    LexLessIffRankLess(ProductAt(b, n, j), ProductAt(b, n, k), b);
  }
}
