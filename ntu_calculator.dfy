/** The computational core of the Texture Unit Number calculator: the Local
    Ternary Pattern (LTP) and Local Binary Pattern (LBP) encodings of an
    8-element neighbourhood array, the brute-force search that inverts them,
    and the rows of the calculation table shown beside a found array.

    A mode is the string the calculator keeps in its session: "LTP" selects
    base 3 and ceiling 6560; every other string selects base 2 and ceiling 255.
 */
module NtuCalculator {
  import opened Positional

  datatype Option<T> = None | Some(value: T)

  const MaxLtpValue: int := 6560
  const MaxLbpValue: int := 255

  /** Number of neighbours in a texture unit (the `repeat` of the search). */
  const Neighbours: nat := 8

  /** The weighting base of a mode, which is also the number of values one
      neighbour can take. */
  function Base(mode: string): nat {
    if mode == "LTP" then 3 else 2
  }

  /** The saturation ceiling of a mode. */
  function Ceiling(mode: string): int {
    if mode == "LTP" then MaxLtpValue else MaxLbpValue
  }

  function Min(x: int, y: int): int {
    if x <= y then x else y
  }

  /** The texture unit number of an array: its weighted sum (element 0 least
      significant), clamped to the mode's ceiling. */
  function TextureUnitNumber(a: seq<int>, mode: string): (r: int)
    ensures r <= Ceiling(mode)
    ensures NonNegative(a) ==> r >= 0
  {
    WeightedSumNonNegative(a, Base(mode));
    Min(WeightedSum(a, Base(mode)), Ceiling(mode))
  }

  // ---------------------------------------------------------------------
  // Facts about the two encodings

  /** Each ceiling is the largest sum of 8 digits, b^8 - 1, and the array of
      8 largest digits (all 2 for LTP, all 1 for LBP) reaches it. */
  lemma CeilingIsLargestSum(mode: string)
    ensures Ceiling(mode) == Pow(Base(mode), Neighbours) - 1
    ensures TextureUnitNumber(seq(Neighbours, _ => Base(mode) - 1), mode) == Ceiling(mode)
  {
    WeightedSumOfLargestDigits(Base(mode), Neighbours);
    if mode == "LTP" {
      assert Pow(3, 8) == 6561;
    } else {
      assert Pow(2, 8) == 256;
    }
  }

  /** On an array of 8 in-range digits the clamp never fires: the texture
      unit number is the plain weighted sum, and it lies in [0, ceiling]. */
  lemma ClampNeverFires(a: seq<int>, mode: string)
    requires |a| == Neighbours && InRange(a, Base(mode))
    ensures TextureUnitNumber(a, mode) == WeightedSum(a, Base(mode))
    ensures 0 <= TextureUnitNumber(a, mode) <= Ceiling(mode)
  {
    WeightedSumBound(a, Base(mode));
    CeilingIsLargestSum(mode);
  }

  /** Every target in [0, ceiling] is the texture unit number of an array of
      8 in-range digits: its base-b digit decomposition. */
  lemma EveryTargetHasPreimage(target: int, mode: string)
    requires 0 <= target <= Ceiling(mode)
    ensures TextureUnitNumber(Digits(target, Base(mode), Neighbours), mode) == target
  {
    CeilingIsLargestSum(mode);
    WeightedSumOfDigits(target, Base(mode), Neighbours);
    ClampNeverFires(Digits(target, Base(mode), Neighbours), mode);
  }

  /** An array of 8 in-range digits is the digit decomposition of its own
      texture unit number, so no two such arrays share a number. */
  lemma PreimageIsUnique(a: seq<int>, mode: string)
    requires |a| == Neighbours && InRange(a, Base(mode))
    ensures TextureUnitNumber(a, mode) >= 0
    ensures a == Digits(TextureUnitNumber(a, mode), Base(mode), Neighbours)
  {
    ClampNeverFires(a, mode);
    DigitsOfWeightedSum(a, Base(mode));
  }

  /** The digit decomposition of the ceiling is the array of largest digits
      (all 2 for LTP, all 1 for LBP), and that of 0 is all zeros. */
  lemma ExtremePreimages(mode: string)
    ensures Digits(Ceiling(mode), Base(mode), Neighbours) == seq(Neighbours, _ => Base(mode) - 1)
    ensures Digits(0, Base(mode), Neighbours) == seq(Neighbours, _ => 0)
  {
    var top := seq(Neighbours, _ => Base(mode) - 1);
    CeilingIsLargestSum(mode);
    PreimageIsUnique(top, mode);
    DigitsOfZero(Base(mode), Neighbours);
  }

  /** The ceiling has exactly one in-range preimage: the array of largest
      digits. */
  lemma CeilingHasOnePreimage(a: seq<int>, mode: string)
    requires |a| == Neighbours && InRange(a, Base(mode))
    requires TextureUnitNumber(a, mode) == Ceiling(mode)
    ensures a == seq(Neighbours, _ => Base(mode) - 1)
  {
    PreimageIsUnique(a, mode);
    ExtremePreimages(mode);
  }

  /** 0 has exactly one in-range preimage: the array of zeros. */
  lemma ZeroHasOnePreimage(a: seq<int>, mode: string)
    requires |a| == Neighbours && InRange(a, Base(mode))
    requires TextureUnitNumber(a, mode) == 0
    ensures a == seq(Neighbours, _ => 0)
  {
    PreimageIsUnique(a, mode);
    ExtremePreimages(mode);
  }

  // ---------------------------------------------------------------------
  // The operations

  /** calc_tu_number: the weighted sum accumulated term by term, then clamped. */
  method CalcTuNumber(tuArray: seq<int>, mode: string) returns (r: int)
    ensures r == Min(WeightedSum(tuArray, Base(mode)), Ceiling(mode))
    ensures r <= Ceiling(mode)
    ensures NonNegative(tuArray) ==> r >= 0
  {
    var flank := |tuArray|;
    var totalSum := 0;
    for i := 0 to flank
      invariant totalSum == WeightedSum(tuArray[..i], Base(mode))
    {
      var term;
      if mode == "LTP" {
        term := Pow(3, i) * tuArray[i];
      } else {
        term := Pow(2, i) * tuArray[i];
      }
      WeightedSumStep(tuArray, Base(mode), i);
      totalSum := totalSum + term;
    }
    assert tuArray[..flank] == tuArray;
    if mode == "LTP" {
      r := Min(totalSum, MaxLtpValue);
    } else {
      r := Min(totalSum, MaxLbpValue);
    }
    assert r == TextureUnitNumber(tuArray, mode);
  }

  /** find_tu_array: walks itertools.product(range(b), repeat=8) and returns
      the first candidate whose texture unit number is the target. */
  method FindTuArray(tuNumber: int, mode: string) returns (r: Option<seq<int>>)
    ensures r.Some? ==> |r.value| == Neighbours && InRange(r.value, Base(mode))
    ensures r.Some? ==> TextureUnitNumber(r.value, mode) == tuNumber
    ensures r.Some? ==>
              forall t :: |t| == Neighbours && InRange(t, Base(mode)) && LexLess(t, r.value) ==>
                TextureUnitNumber(t, mode) != tuNumber
    ensures r.None? <==>
              forall t :: |t| == Neighbours && InRange(t, Base(mode)) ==> TextureUnitNumber(t, mode) != tuNumber
    ensures r.Some? <==> 0 <= tuNumber <= Ceiling(mode)
    ensures r.Some? ==> r.value == Digits(tuNumber, Base(mode), Neighbours)
  {
    var b := Base(mode);
    var count := Pow(b, Neighbours);
    var k := 0;
    while k < count
      invariant 0 <= k <= count
      invariant forall j :: 0 <= j < k ==> TextureUnitNumber(ProductAt(b, Neighbours, j), mode) != tuNumber
    {
      var candidate := ProductAt(b, Neighbours, k);
      var candidateSum := CalcTuNumber(candidate, mode);
      if candidateSum == tuNumber {
        FirstInProductOrder(tuNumber, mode, k);
        PreimageIsUnique(candidate, mode);
        ClampNeverFires(candidate, mode);
        return Some(candidate);
      }
      k := k + 1;
    }
    NoneOnlyWithoutPreimage(tuNumber, mode);
    return None;
  }

  /** If no candidate before index k of the enumeration matches, no in-range
      array earlier in tuple order matches. */
  lemma FirstInProductOrder(tuNumber: int, mode: string, k: int)
    requires 0 <= k < Pow(Base(mode), Neighbours)
    requires forall j :: 0 <= j < k ==> TextureUnitNumber(ProductAt(Base(mode), Neighbours, j), mode) != tuNumber
    ensures forall t :: |t| == Neighbours && InRange(t, Base(mode)) && LexLess(t, ProductAt(Base(mode), Neighbours, k)) ==>
                          TextureUnitNumber(t, mode) != tuNumber
  {
    var b := Base(mode);
    forall t | |t| == Neighbours && InRange(t, b) && LexLess(t, ProductAt(b, Neighbours, k))
      ensures TextureUnitNumber(t, mode) != tuNumber
    {
      RankOfProductAt(b, Neighbours, k);
      LexLessIffRankLess(t, ProductAt(b, Neighbours, k), b);
      RankBound(t, b);
      ProductAtOfRank(t, b);
    }
  }

  /** When no candidate of the whole enumeration matches, the target has no
      in-range preimage and lies outside [0, ceiling]. */
  lemma NoneOnlyWithoutPreimage(tuNumber: int, mode: string)
    requires forall j :: 0 <= j < Pow(Base(mode), Neighbours) ==>
                           TextureUnitNumber(ProductAt(Base(mode), Neighbours, j), mode) != tuNumber
    ensures forall t :: |t| == Neighbours && InRange(t, Base(mode)) ==> TextureUnitNumber(t, mode) != tuNumber
    ensures !(0 <= tuNumber <= Ceiling(mode))
  {
    var b := Base(mode);
    forall t | |t| == Neighbours && InRange(t, b)
      ensures TextureUnitNumber(t, mode) != tuNumber
    {
      RankBound(t, b);
      ProductAtOfRank(t, b);
    }
    if 0 <= tuNumber <= Ceiling(mode) {
      EveryTargetHasPreimage(tuNumber, mode);
    }
  }

  /** One row of the calculation table: [i, power_of, value, iteration_sum, total_bin]. */
  datatype TableRow = TableRow(index: nat, powerOf: int, value: int, iterationSum: int, totalBin: int)

  /** The "cumulative bin sum" column: the weighted sum over the first n
      elements, summed afresh for each row. */
  method CumulativeSum(tuArray: seq<int>, mode: string, n: nat) returns (total: int)
    requires n <= |tuArray|
    ensures total == WeightedSum(tuArray[..n], Base(mode))
  {
    total := 0;
    for j := 0 to n
      invariant total == WeightedSum(tuArray[..j], Base(mode))
    {
      WeightedSumStep(tuArray, Base(mode), j);
      MulComm(tuArray[j], Pow(Base(mode), j));
      total := total + tuArray[j] * Pow(Base(mode), j);
    }
  }

  /** Row i of the calculation table for an array, under base b: the index,
      the weight b^i, the element, their product, and the cumulative weighted
      sum over positions 0..i. */
  predicate RowDescribes(row: TableRow, tuArray: seq<int>, b: nat, i: nat)
    requires i < |tuArray|
  {
    && row.index == i
    && row.powerOf == Pow(b, i)
    && row.value == tuArray[i]
    && row.iterationSum == tuArray[i] * Pow(b, i)
    && row.totalBin == WeightedSum(tuArray[..i + 1], b)
  }

  /** The calculation table: one row per element, in order. */
  predicate IsCalculationTable(rows: seq<TableRow>, tuArray: seq<int>, b: nat) {
    |rows| == |tuArray| && forall i :: 0 <= i < |rows| ==> RowDescribes(rows[i], tuArray, b, i)
  }

  /** The cumulative column is a running sum of the iteration column; with
      non-negative elements it never decreases; its last entry is the
      unclamped weighted sum of the whole array. */
  lemma CalculationTableSums(rows: seq<TableRow>, tuArray: seq<int>, b: nat)
    requires IsCalculationTable(rows, tuArray, b)
    ensures |rows| > 0 ==> rows[0].totalBin == rows[0].iterationSum
    ensures forall i :: 0 < i < |rows| ==> rows[i].totalBin == rows[i - 1].totalBin + rows[i].iterationSum
    ensures NonNegative(tuArray) ==>
              forall i, j :: 0 <= i <= j < |rows| ==> rows[i].totalBin <= rows[j].totalBin
    ensures |rows| > 0 ==> rows[|rows| - 1].totalBin == WeightedSum(tuArray, b)
  {
    if |rows| > 0 {
      assert RowDescribes(rows[0], tuArray, b, 0);
      WeightedSumStep(tuArray, b, 0);
      MulComm(tuArray[0], Pow(b, 0));
      assert RowDescribes(rows[|rows| - 1], tuArray, b, |rows| - 1);
      assert tuArray[..|tuArray|] == tuArray;
    }
    forall i | 0 < i < |rows|
      ensures rows[i].totalBin == rows[i - 1].totalBin + rows[i].iterationSum
    {
      assert RowDescribes(rows[i], tuArray, b, i);
      assert RowDescribes(rows[i - 1], tuArray, b, i - 1);
      WeightedSumStep(tuArray, b, i);
      MulComm(tuArray[i], Pow(b, i));
    }
    if NonNegative(tuArray) {
      forall i, j | 0 <= i <= j < |rows|
        ensures rows[i].totalBin <= rows[j].totalBin
      {
        assert RowDescribes(rows[i], tuArray, b, i);
        assert RowDescribes(rows[j], tuArray, b, j);
        WeightedSumPrefixMonotone(tuArray, b, i + 1, j + 1);
      }
    }
  }

  /** The calculation table shown beside a found array. */
  method CalculationTable(tuArray: seq<int>, mode: string) returns (rows: seq<TableRow>)
    ensures IsCalculationTable(rows, tuArray, Base(mode))
  {
    rows := [];
    for i := 0 to |tuArray|
      invariant |rows| == i
      invariant forall k :: 0 <= k < i ==> RowDescribes(rows[k], tuArray, Base(mode), k)
    {
      var value := tuArray[i];
      var powerOf;
      if mode == "LTP" {
        powerOf := Pow(3, i);
      } else {
        powerOf := Pow(2, i);
      }
      var iterationSum := value * powerOf;
      var totalBin := CumulativeSum(tuArray, mode, i + 1);
      rows := rows + [TableRow(i, powerOf, value, iterationSum, totalBin)];
    }
  }

  /** What the Calculate button shows. */
  datatype Outcome =
    | OutOfRange(maxValue: int)
    | NotFound
    | Found(tuArray: seq<int>, rows: seq<TableRow>)

  /** The Calculate handler: range check, search, then the calculation table. */
  method Calculate(tuNumber: int, mode: string) returns (outcome: Outcome)
    ensures outcome.OutOfRange? <==> !(0 <= tuNumber <= Ceiling(mode))
    ensures outcome.OutOfRange? ==> outcome.maxValue == Ceiling(mode)
    ensures !outcome.NotFound?
    ensures outcome.Found? ==> outcome.tuArray == Digits(tuNumber, Base(mode), Neighbours)
    ensures outcome.Found? ==> IsCalculationTable(outcome.rows, outcome.tuArray, Base(mode))
    ensures outcome.Found? ==> |outcome.rows| == Neighbours && outcome.rows[Neighbours - 1].totalBin == tuNumber
  {
    var maxValue := if mode == "LTP" then MaxLtpValue else MaxLbpValue;
    if tuNumber < 0 || tuNumber > maxValue {
      return OutOfRange(maxValue);
    }
    var tuArray := FindTuArray(tuNumber, mode);
    if tuArray.Some? && tuArray.value != [] {
      var rows := CalculationTable(tuArray.value, mode);
      CalculationTableSums(rows, tuArray.value, Base(mode));
      ClampNeverFires(tuArray.value, mode);
      outcome := Found(tuArray.value, rows);
    } else {
      outcome := NotFound;
    }
  }
}
