# PSSM scoring in Dafny

A model of `scoring.py`, a small library that builds position-specific
scoring matrices (PSSMs) from aligned DNA motif instances over the alphabet
A, T, C, G and scores strings against them. The pipeline is:

instances → count matrix → frequency matrix → pseudo-counted matrix, and
three scorers (sum, product, sum without offset) plus the percentage
reporters, which score the training motifs against their own frequency
matrix.

Representation:

- `Dna.Base` is `A | T | C | G`, and `Dna.Bases` is the fixed order `[A, T, C, G]`.
  Strings are `seq<Base>`, so a character outside the alphabet cannot be
  written down. In the source such a character fails with a key lookup error.
- `Dna.Matrix<N>` holds one row per base (`Row(b)`). Counts are
  `Matrix<int>`; frequencies and scores are `Matrix<real>`, which are exact
  rationals. Python floats are not modelled.
- The source crashes on some inputs instead of handling them, and the model
  states these as preconditions:
  - an empty instance list (`instances[0]`);
  - instances of unequal length (the `assert`);
  - a zero-length motif (`count_matrix[base][0]`);
  - a zero instance count or a position with all four frequencies zero
    (division by zero).
- Each scorer is written as the source's loop: an accumulator folded over
  the positions of the string. Separate lemmas relate them to reference sums
  and products (`Folds.Sum`, `Folds.Product`).

Files: `dna.dfy` (alphabet, matrix, column sums), `folds.dfy` (sum and
product), `counts.dfy`, `frequency.dfy`, `pseudo.dfy`, `scorers.dfy`,
`reporters.dfy`.

Where the code and its documentation differ, the model follows the code:

- The scorers only need each looked-up row to reach the string's position.
  A string shorter than the motif is scored on its own positions. Nothing
  checks that the lengths are equal.
- score_sum starts at 1. With entries in [0,1] its range is [1, L+1], not
  "0 to length of string". On "AT" it returns 2.5, not the 1.5 in the
  documentation; that example actually calls score_pssm, which returns 0.5.
- add_pseudo_counts does not make every cell non-zero. A non-zero cell can
  drop to 0 or below (`PseudoCounts.SmoothingCanLeaveZeroOrNegative`).
- A position's mass is preserved whatever it was, not only when it is 1.
- get_total_motifs_percentage multiplies the dictionary's values, so a motif
  listed twice is one factor, although its instances count twice in the
  frequency matrix (`Reporters.RepeatedMotifExample`).

## Model

| member | source | states |
|---|---|---|
| Counts.Tally | scoring.py:24-28 | After the outer loop has consumed any list of instances of width `w`, every row has length `w`. Each entry equals the number of consumed instances with that base at that position. Each column adds up to the number of instances consumed. |
| Counts.CountMatrix | scoring.py:9-29 | For a non-empty list of equal-length instances: the four rows have the motif length. Each entry is the number of instances carrying that base there. Each column sums to the number of instances, and every entry lies in [0, N]. |
| Counts.OwnBasesCounted | scoring.py:25-28 | Every base of a listed instance is counted at least once at its position. |
| Counts.CountMatrixExample | scoring.py:18-19 | `["ACC","ATG"]` gives A:[2,0,0], T:[0,1,0], C:[0,1,1], G:[0,0,1]. |
| Frequencies.CountToFrequency | scoring.py:32-49 | Needs a position 0 in every row and a non-zero column-0 total. Every row keeps its length. Multiplying any entry by that total gives back the original count. |
| Frequencies.FrequencyColumnMass | scoring.py:45-48 | Each frequency column sums to that column's count total divided by the column-0 total. |
| Frequencies.FrequencyMatrix | scoring.py:142-145 | For equal-length instances of non-zero length: the matrix has the motif width. Each entry is the fraction of instances carrying that base there. Every column sums to exactly 1, and every entry lies in [0,1]. |
| Frequencies.CountToFrequencyExample | scoring.py:41-42 | `{A:[2,0],T:[0,1],C:[0,1],G:[0,0]}` gives `{A:[1,0],T:[0,0.5],C:[0,0.5],G:[0,0]}`. |
| PseudoCounts.AddPseudoCounts | scoring.py:104-121 | Every output row has the length of the A row. A zero cell becomes `low`. A non-zero cell loses its position's `Diff`. Every position keeps the mass it had. |
| PseudoCounts.RedistributionKeepsMass | scoring.py:113-120 | At one position, replacing zeros by `low` and taking `Diff` from every other cell leaves the column sum unchanged. |
| PseudoCounts.NoZerosUnchanged | scoring.py:114-120 | A matrix of uniform width with no zero entry can be smoothed, and smoothing returns it unchanged. |
| PseudoCounts.FrequencyMatrixSmoothable | scoring.py:135-137 | A frequency matrix built from instances meets add_pseudo_counts' requirement: no all-zero position. After smoothing, every column still sums to 1. |
| PseudoCounts.PositiveWhenAboveDiff | scoring.py:116-120 | With `low > 0` and every non-zero cell greater than its position's `Diff`, every smoothed cell is strictly positive. |
| PseudoCounts.SmoothingCanLeaveZeroOrNegative | scoring.py:116-120 | With the default floor, the column (0.9, 0.1, 0, 0) turns 0.1 into 0, and (0.95, 0.05, 0, 0) turns 0.05 negative. |
| PseudoCounts.AddPseudoCountsExample | scoring.py:107-108 | The documented matrix smoothed with floor 0.1 gives `{A:[0.7,0.1],T:[0.1,0.4],C:[0.1,0.4],G:[0.1,0.1]}`. |
| Scorers.ScoreSum | scoring.py:66-70 | When every matrix entry lies in [0,1], the score lies in [1, length + 1]. |
| Scorers.ScorePssm | scoring.py:85-89 | When every matrix entry lies in [0,1], the score lies in [0,1]. |
| Scorers.ScoreSumIsOffsetLogScore | scoring.py:97-101 | For every string and matrix, score_sum equals 1 plus score_pssm_log. |
| Scorers.ScorePssmLog | scoring.py:92-101 | When no looked-up cell is negative (the cells are costs, lower is better), the score is not negative. Its value is stated by `Scorers.LogScoreIsSum` and `Scorers.ScoreSumIsOffsetLogScore`. |
| Scorers.LogScoreIsSum | scoring.py:97-101 | score_pssm_log is the sum of the looked-up cells `m[s[i]][i]`. |
| Scorers.PssmScoreIsProduct | scoring.py:85-89 | score_pssm is the product of the looked-up cells `m[s[i]][i]`. |
| Scorers.PssmScorePositive | scoring.py:80-89 | If every looked-up cell lies in (0,1], the product score lies in (0,1]. |
| Scorers.ScoreExample | scoring.py:82-83 | Scoring "AT" against the documented matrix: score_pssm gives 0.5, and score_sum gives 2.5. |
| Reporters.Distinct | scoring.py:159-168 | The dictionary's keys: exactly the listed motifs, none repeated, as many as there are distinct motifs. |
| Reporters.ScoreEach | scoring.py:159-161 | The dictionary built by the loop has the listed motifs as its keys, and each key maps to its product score. |
| Reporters.TrainingMotifScore | scoring.py:157-161 | A motif from the training list fits the list's own frequency matrix, and its product score is strictly positive and at most 1. |
| Reporters.MotifsPercentage | scoring.py:157-163 | The keys are exactly the distinct motifs, so duplicates collapse. Each value is the motif's product score against the frequency matrix of all motifs, and lies in (0,1]. |
| Reporters.TotalMotifsPercentage | scoring.py:166-168 | The product of the dictionary's values lies in (0,1] and is at most every single motif's score. Its exact value for every list is stated by `Reporters.TotalIsProductOfDistinctScores`. |
| Reporters.DistinctOfDuplicateFree | scoring.py:159-161 | A motif list without repeats has exactly its own elements, in order, as dictionary keys. |
| Reporters.TotalIsProductOfDistinctScores | scoring.py:157-168 | For every motif list, repeats included, the total is the product of the scores of the distinct motifs against the frequency matrix of the whole list: one factor per motif, however often it is listed. |
| Reporters.TotalOfDuplicateFree | scoring.py:166-168 | For a motif list without repeats, the total is the product of every motif's score, each taken once. |
| Reporters.RepeatedMotifExample | scoring.py:157-168 | For `["A", "A", "T"]` the total is 2/9 (2/3 for A, 1/3 for T, A counted once), while one factor per listed motif would give 4/27. |

## Left out

- freq_to_log_matrix, get_scoring_matrix, get_motifs_score and get_total_motifs_score (scoring.py:124-139, 148-154, 171-173): they rest on `-log`, a transcendental function that exact reals cannot express.
- Floating-point rounding: all arithmetic is exact. The model proves column sums of exactly 1 where Python floats only come close.
- `numpy.product` is a foreign library call. It is replaced by the plain recursive product `Folds.Product` over the values in key order.
- The `__main__` demonstration (scoring.py:176-204): it only prints.
- Characters outside A, T, C, G: the string type excludes them, so the source's key error is not modelled as a result value.
- The default argument `low_frequency=0.1`: it is the constant `PseudoCounts.DefaultLow`, which callers pass explicitly.
- Scorers.ScoreSum: the documentation comment promises a range of 0 to the string length. That is not proved, because the code starts at 1; the contract proves [1, length + 1] instead.
- Dictionary iteration order for `count_matrix.items()`: the matrix has four fixed fields, so there is no order to model.
