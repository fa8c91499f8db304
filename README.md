# Texture Unit Number calculator: a verified model of its core

The calculator turns a texture unit number back into the 8-element
neighbourhood array that produces it. It supports two encodings. In Local
Ternary Pattern (LTP) mode each neighbour is 0, 1 or 2, and the number is
Σ 3^i · a[i], capped at 6560. In Local Binary Pattern (LBP) mode each
neighbour is 0 or 1, and the number is Σ 2^i · a[i], capped at 255. Element 0
is the least significant position.

The calculator does not invert the number arithmetically. It walks
`itertools.product(range(b), repeat=8)` and returns the first tuple that
encodes to the target. Beside a found array it shows a table with one row per
position. Each row holds the weight b^i, the product a[i] · b^i, and the
cumulative weighted sum over positions 0..i.

The model has two modules:

- `Positional` (positional.dfy) holds the arithmetic, written as pure
  functions and lemmas:
  - `WeightedSum` reads an array least-significant-first.
  - `Digits` is the base-b digit decomposition.
  - `ProductAt(b, n, k)` is the k-th tuple that `itertools.product` lists.
  - `Rank` is the inverse of `ProductAt`: it reads a tuple
    most-significant-first.
  - `LexLess` is Python's ordering of tuples.
- `NtuCalculator` (ntu_calculator.dfy) holds the constants and the operations.
  - The encoder, the search, the cumulative column, the table and the
    Calculate handler are methods with the source's loops.
  - Each method is proved against the functions above.
  - The lemmas beside them prove the two encodings are bijections between
    {0..b−1}^8 and [0, ceiling]. So the cap never fires on such arrays, and
    the search finds a result exactly for the targets in [0, ceiling].

A mode is a string, as in the source. `"LTP"` selects base 3 and ceiling
6560. Any other string selects base 2 and ceiling 255: that is the source's
`else` branch, which has no separate check for `"LBP"`.

Three facts about the source shape the model:

- **Enumeration order.** `itertools.product` (ntu_calculator.py:182) varies
  element 0 slowest and element 7 fastest. Element 0 is the least significant
  position of the weighting, so the search does not visit candidates in
  increasing order of their numbers. The model enumerates as `product` does
  (`ProductAt`, `ProductOrderIsLexOrder`).
- **No ties at the ceiling.** For in-range 8-element arrays, the largest
  weighted sum is exactly the ceiling (`CeilingIsLargestSum`). The only array
  that reaches it is all 2s for LTP or all 1s for LBP
  (`CeilingHasOnePreimage`). So the clamp never changes a candidate's number
  (`ClampNeverFires`), and no two candidates share one (`PreimageIsUnique`).
- **Range errors.** The range check is not part of the search. It sits in
  the Calculate handler (ntu_calculator.py:328). `find_tu_array` itself takes
  any integer and returns `None` for one outside [0, ceiling] (`FindTuArray`).

`round()` is applied to an integer sum in the source, so it is the identity
and is not modelled. All numbers are unbounded integers, as in Python.

## Model

| member | source | states |
|---|---|---|
| `NtuCalculator.TextureUnitNumber` | ntu_calculator.py:151-168 | the texture unit number never exceeds the mode's ceiling, and it is non-negative whenever every element is |
| `NtuCalculator.CalcTuNumber` | ntu_calculator.py:151-168 | the loop returns min(Σ base^i · a[i], ceiling), with base 3 and ceiling 6560 for "LTP" and base 2 and ceiling 255 for any other mode; the result is at most the ceiling, and non-negative for non-negative elements |
| `NtuCalculator.CeilingIsLargestSum` | ntu_calculator.py:7-8 | each ceiling equals base^8 − 1 (6560 = 3^8 − 1, 255 = 2^8 − 1), and the all-largest-digit array (all 2 for LTP, all 1 for LBP) encodes to exactly the ceiling |
| `NtuCalculator.ClampNeverFires` | ntu_calculator.py:158-168 | for 8 in-range digits the `min` is a no-op: the number equals the unclamped weighted sum and lies in [0, ceiling] |
| `NtuCalculator.EveryTargetHasPreimage` | ntu_calculator.py:182-186 | every target in [0, ceiling] is the number of its base-b digit decomposition, an array of 8 in-range digits |
| `NtuCalculator.PreimageIsUnique` | ntu_calculator.py:182-185 | every array of 8 in-range digits is the digit decomposition of its own number, so no two such arrays share a number |
| `NtuCalculator.ExtremePreimages` | ntu_calculator.py:182-185 | the digit decomposition of the ceiling is the all-largest-digit array, and that of 0 is all zeros |
| `NtuCalculator.CeilingHasOnePreimage` | ntu_calculator.py:182-185 | an in-range 8-array whose number is the ceiling is the all-largest-digit array (all 2 for LTP, all 1 for LBP): saturation creates no ties |
| `NtuCalculator.ZeroHasOnePreimage` | ntu_calculator.py:182-185 | an in-range 8-array whose number is 0 is all zeros |
| `NtuCalculator.FindTuArray` | ntu_calculator.py:171-186 | a returned list has 8 elements in range(base) and re-encodes to the target; no in-range tuple earlier in Python tuple order (the order of `product`) encodes to the target; `None` is returned exactly when no candidate matches, which is exactly when the target is outside [0, ceiling]; for every target in range the result is the digit decomposition a[i] = (n / b^i) % b |
| `NtuCalculator.FirstInProductOrder` | ntu_calculator.py:182-185 | if none of the first k candidates of the enumeration matches, no in-range tuple that Python orders before candidate k matches |
| `NtuCalculator.NoneOnlyWithoutPreimage` | ntu_calculator.py:182-186 | if no candidate of the whole enumeration matches, no in-range array has the target as its number, and the target lies outside [0, ceiling] |
| `NtuCalculator.CumulativeSum` | ntu_calculator.py:353 | the generator sum for `total_bin` equals the weighted sum over positions 0..i |
| `NtuCalculator.CalculationTable` | ntu_calculator.py:346-354 | row i is [i, base^i, a[i], a[i] · base^i, weighted sum of a[0..i]], one row per element, in order |
| `NtuCalculator.CalculationTableSums` | ntu_calculator.py:346-354 | the cumulative column is the running sum of the iteration column, never decreases when the elements are non-negative, and ends at the unclamped weighted sum of the whole array |
| `NtuCalculator.Calculate` | ntu_calculator.py:323-370 | an out-of-range target gives the range error with the mode's maximum; the "no tu_array found" branch is never taken; otherwise the array shown is the digit decomposition of the target, and the table beside it is its calculation table (row i is [i, base^i, a[i], a[i] · base^i, weighted sum of a[0..i]]), with 8 rows whose last cumulative sum is the target |
| `Positional.Digits` | ntu_calculator.py:182-186 | the decomposition has exactly `len` elements, each in range(b) |
| `Positional.ProductAt` | ntu_calculator.py:182 | the k-th tuple of `product(range(b), repeat=n)` has n elements, each in range(b) |
| `Positional.WeightedSumStep` | ntu_calculator.py:158-163 | adding position i to the loop's running total adds b^i · a[i] |
| `Positional.WeightedSumHead` | ntu_calculator.py:158-163 | the weighted sum is a[0] + b · (weighted sum of a[1..]) |
| `Positional.WeightedSumNonNegative` | ntu_calculator.py:158-163 | when every element is non-negative, the sum is non-negative |
| `Positional.WeightedSumPrefixMonotone` | ntu_calculator.py:353 | with non-negative elements, a longer prefix never has a smaller weighted sum |
| `Positional.WeightedSumBound` | ntu_calculator.py:158-163 | n digits in range(b) have a weighted sum in [0, b^n − 1] |
| `Positional.WeightedSumOfLargestDigits` | ntu_calculator.py:7-8 | n copies of digit b − 1 have weighted sum exactly b^n − 1 |
| `Positional.DigitAt` | ntu_calculator.py:182-186 | element i of the decomposition of n is (n / b^i) % b |
| `Positional.DigitsOfZero` | ntu_calculator.py:182-185 | the decomposition of 0 is all zeros |
| `Positional.WeightedSumOfDigits` | ntu_calculator.py:182-186 | decomposing n (0 ≤ n < b^len) and weighting the digits gives n back |
| `Positional.DigitsOfWeightedSum` | ntu_calculator.py:182-185 | weighting an in-range array and decomposing the sum gives the array back |
| `Positional.WeightedSumInjective` | ntu_calculator.py:182-185 | two in-range arrays of one length with equal weighted sums are equal |
| `Positional.RankHead` | ntu_calculator.py:182 | a tuple's rank is t[0] · b^(n−1) plus the rank of the rest |
| `Positional.RankBound` | ntu_calculator.py:182 | the rank of an n-tuple of digits lies in [0, b^n) |
| `Positional.RankOfProductAt` | ntu_calculator.py:182 | the k-th tuple of the enumeration has rank k |
| `Positional.ProductAtOfRank` | ntu_calculator.py:182 | every in-range tuple is listed by the enumeration, at the index given by its rank |
| `Positional.LexLessIffRankLess` | ntu_calculator.py:182 | for in-range tuples of one length, Python's tuple order is the order of their ranks, in both directions |
| `Positional.ProductOrderIsLexOrder` | ntu_calculator.py:182 | `product` lists tuples in strictly increasing Python tuple order |

## Left out

- The Streamlit interface is not modelled (ntu_calculator.py:10-148, 284-373): page setup, CSS, the mode-switch and reset buttons, `st.rerun`, the number input widget, and the rendering of tables and messages. The Calculate handler is modelled only for the values it computes and the branch it takes.
- `get_neighborhood` (ntu_calculator.py:189-282) is not modelled. It only renders HTML grids and draws illustrative strings with `random.choice`.
- Logging and the `try`/`except` that reports unexpected exceptions (ntu_calculator.py:17-19, 371-373) are not modelled. They are I/O, and nothing in the modelled code raises.
- The `isinstance(tu_number, int)` check (ntu_calculator.py:326) is not modelled, because the target is an `int` by type here.
- `round()` (ntu_calculator.py:166, 168) is modelled as the identity, because it is applied to an integer.
- The default argument `mode='LTP'` is not modelled: every caller passes the mode explicitly.
- Python's dynamic typing is not modelled: arrays are sequences of integers, and elements of other types are outside the model.
