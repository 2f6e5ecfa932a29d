# HEXACO-100 personality scorer

A model of `calculatePersonality.py`. The script reads one row of answers per
respondent to the 100 items of the HEXACO-100 inventory (columns `q1` to
`q100`, each answer on a 1..5 Likert scale), and works in three steps:

1. it reverses the answers of the reverse-keyed items in place (1↔5, 2↔4, 3
   stays);
2. it averages each of the seven scales over the answers present:
   - Honesty-Humility, Emotionality, Extraversion, Agreeableness,
     Conscientiousness and Openness to Experience (16 items each);
   - Altruism (4 items);
3. it assembles the seven means, row by row, into a seven-column table.

The project is organised as follows:

- `likert.dfy` (module `Likert`) holds the answer cell and `reverse`.
- `inventory.dfy` (module `Inventory`) holds the constant item tables:
  - the seven scales with their item lists and headers;
  - the list of reverse-keyed items.

  It also proves the structure of these tables:
  - the six broad scales are the items 1..96 of one residue mod 6 each, laid
    out facet by facet;
  - Altruism is 97..100;
  - together the scales partition the 100 items;
  - the reversal list has 50 distinct items, each inside one scale.
- `averaging.dfy` (module `Averaging`) holds the mean over present values, as
  pandas' `mean(axis=1)` computes it: missing cells are skipped, and a group
  with no answer at all has no mean.
- `scoring.dfy` (module `Scoring`) holds the whole transformation on values
  (row reversal and the score table) and its properties.
- `scorer.dfy` (module `Scorer`) holds the script body in its own imperative
  form:
  - the response table is a two-dimensional array whose reverse-keyed columns
    are overwritten in place;
  - the score table is built one scale at a time and merged row by row.

Item `qN` is identified by its number `N`, and is stored at column `N - 1`. A
cell is `Option<int>`: `None` stands for a missing answer (NaN). The means are
exact `real` numbers.

The reversal list in the code holds 50 item ids. That is ten for
Honesty-Humility, seven each for Emotionality and Extraversion, eight each for
Agreeableness, Conscientiousness and Openness, and two for Altruism. The
model follows the code. `Inventory.ReversalItems` holds the script's list in
its order, one line per scale, and `Inventory.ReversalItemsByScale` proves it
is the seven per-scale runs `ReverseKeyed` joined.

## Model

| member | source | states |
|---|---|---|
| Likert.Reverse | calculatePersonality.py:56-66 | a value comes out exactly when the input is an answer in 1..5; the value is then 6 minus the input (1→5, 2→4, 3→3, 4→2, 5→1) and again in 1..5 |
| Likert.ReverseInvolution | calculatePersonality.py:56-66 | on a missing cell or an answer in 1..5, reversing twice gives the cell back |
| Likert.ReverseMissing | calculatePersonality.py:56-66 | a missing cell, or any value outside 1..5, reverses to missing |
| Inventory.NamesDistinct | calculatePersonality.py:88-122 | the seven column headers of `Traits`, in the merge order Honesty-Humility, Emotionality, Extraversion, Agreeableness, Conscientiousness, Openness to Experience, Altruism, are pairwise different |
| Inventory.Items | calculatePersonality.py:85-120 | the item list of each broad scale has 16 entries and the Altruism list has 4 |
| Inventory.BroadItemsLayout | calculatePersonality.py:85-115 | each broad scale has 16 items; item k is first + 6·(k div 4) + 24·(k mod 4), where first is 6, 5, 4, 3, 2 or 1 |
| Inventory.BroadItemInjective | calculatePersonality.py:85-115 | within one broad scale, different positions hold different items |
| Inventory.BroadItemResidue | calculatePersonality.py:85-115 | every broad-scale item lies in 1..96 and has its scale's residue mod 6 |
| Inventory.BroadItemCovers | calculatePersonality.py:85-115 | every item in 1..96 of a scale's residue appears at some position of that scale |
| Inventory.ItemsInRange | calculatePersonality.py:85-120 | every item of every scale names one of the 100 columns |
| Inventory.ItemsWellFormed | calculatePersonality.py:85-120 | the six broad scales have 16 items and Altruism has 4, all in 1..100 and without repeats |
| Inventory.ItemTrait | calculatePersonality.py:85-120 | the k-th item of scale t lies in 1..100, and the residue rule (97..100 is Altruism, else by residue mod 6) assigns it to t |
| Inventory.ItemsCover | calculatePersonality.py:85-120 | every item 1..100 is listed in the scale the residue rule gives it |
| Inventory.ItemsPartition | calculatePersonality.py:85-120 | an item is listed in scale t if and only if t is its scale under the residue rule, so the seven lists partition the 100 items |
| Inventory.ReverseKeyedDistinct | calculatePersonality.py:75-78 | each scale's run of the reversal list has no repeats |
| Inventory.ReverseKeyedInScale | calculatePersonality.py:75-78 | every item of a scale's run (`ReverseKeyed`) of the reversal list lies in 1..100 and belongs to that scale |
| Inventory.ReversalItemsByScale | calculatePersonality.py:75-78 | the script's list is the reverse-keyed items of the seven scales, scale by scale in column order |
| Inventory.ReversalItemsWellFormed | calculatePersonality.py:75-78 | the reversal list `ReversalItems` has 50 items, none repeated, each in 1..100 and each listed in exactly the scale the residue rule gives it |
| Inventory.ReversalByScale | calculatePersonality.py:75-78 | an item is reverse-keyed if and only if it is in its own scale's run of the list |
| Averaging.Present | calculatePersonality.py:87 | the present values of a group are at most as many as its cells, there are none exactly when every cell is missing, and v is among them exactly when some cell holds v |
| Averaging.Mean | calculatePersonality.py:87 | the group mean is missing exactly when every cell of the group is missing |
| Averaging.SumBounds | calculatePersonality.py:87 | a sum of n values in [lo, hi] lies in [lo·n, hi·n] |
| Averaging.MeanBetween | calculatePersonality.py:87 | when every present value lies in [lo, hi], so does the mean |
| Averaging.MeanWithinPresent | calculatePersonality.py:87 | a group with an answer has a mean, and the mean lies between the smallest and the largest present value |
| Averaging.MeanOfConstant | calculatePersonality.py:87 | a group whose present values all equal c, with at least one present, has mean c |
| Averaging.PresentOfAnswered | calculatePersonality.py:87 | in a group without missing cells the present values are all the cells' values, in order |
| Averaging.SumPermutation | calculatePersonality.py:87 | lists with the same multiset of values have the same sum |
| Averaging.PresentMultiset | calculatePersonality.py:87 | each value occurs among the present values as often as the cell holding it occurs in the group |
| Averaging.MeanPermutation | calculatePersonality.py:87 | the mean does not depend on the order of the group's cells |
| Scoring.ReverseRow | calculatePersonality.py:75-80 | a reversed row has the same length; every column not on the reversal list is unchanged; a listed column holds 6 minus the answer when the answer is in 1..5, and is missing otherwise |
| Scoring.ReverseTable | calculatePersonality.py:80 | one reversed row per input row, in order and of the same length; in every row a listed column holds 6 − v for an answer v in 1..5 and is missing otherwise, and every other column is unchanged |
| Scoring.ScoreRow | calculatePersonality.py:87-123 | each respondent gets exactly one score per scale, seven in all |
| Scoring.ScoreTable | calculatePersonality.py:87-123 | the score table has one row per input row and seven scores in each |
| Scoring.Personality | calculatePersonality.py:75-123 | the result has one row per respondent, in input order, and row k is the seven scale scores of respondent k's reversed answers alone |
| Scoring.ReverseRowInvolution | calculatePersonality.py:75-80 | on a row of missing cells and answers in 1..5, reversing the listed columns twice gives the row back |
| Scoring.ReverseRowKeepsScale | calculatePersonality.py:75-80 | reversal keeps a row within the 1..5 scale, keeps a fully answered row fully answered, and keeps missing cells missing |
| Scoring.PersonalityRowAligned | calculatePersonality.py:87-123 | the score table of two stacked tables is the two score tables stacked, so each output row depends only on its own input row and keeps its place; every output row has seven entries |
| Scoring.GroupScoreMissing | calculatePersonality.py:80-121 | on a row of missing cells and answers in 1..5, a group's mean after reversal is missing if and only if none of its cells was answered |
| Scoring.TraitScoreMissing | calculatePersonality.py:80-121 | on a row of missing cells and answers in 1..5, a scale score after reversal is missing if and only if none of the scale's items was answered |
| Scoring.GroupScoreInScale | calculatePersonality.py:87 | on a fully answered row, a non-empty group has a mean in [1, 5] |
| Scoring.AnsweredRowScores | calculatePersonality.py:80-121 | a fully answered row gets all seven scores, each in [1, 5] |
| Scoring.ValidRowScores | calculatePersonality.py:80-121 | on a row of missing cells and answers in 1..5, every scale score that is present lies in [1, 5] |
| Scoring.NeutralRowScores | calculatePersonality.py:80-121 | a row answered 3 everywhere scores 3 on every scale |
| Scoring.AltruismExample | calculatePersonality.py:75-80 | with Altruism answers 5, 5, missing, 1 for q97..q100, the reverse-keyed q99 and q100 flip, the missing answer is skipped and Altruism scores 5 |
| Scorer.ReverseItems | calculatePersonality.py:75-80 | updates the table in place: each reverse-keyed column is reversed and every other cell is unchanged, so the new table is the reversal of the old one |
| Scorer.ComputeTraits | calculatePersonality.py:85-123 | the headers are the seven scale names in order, and the table has, for each input row in order, the seven scale means of that row |
| Scorer.CalculatePersonality | calculatePersonality.py:75-123 | the response table is left reversed in place, the headers are the seven scale names in merge order, and the result is the score table of the reversed responses |

## Left out

- Reading `results.csv` and writing `personality.csv` (including the index column `to_csv` adds) are file I/O. The model starts from the table already read and ends with the headers and score table.
- `print(personality)` is console output.
- The pandas mechanics are modelled as plain sequence and array operations, not as library behaviour:
  - `applymap` over the listed columns;
  - the one-column DataFrames and their `columns` assignment;
  - `merge` on the row index.
- The means are exact rationals. Floating-point rounding is not modelled.
- A cell is either missing or an integer. Non-numeric cells, and fractional values that pandas might infer, are not modelled. The script has no handling of its own for them.
- Columns other than `q1`..`q100`, which the script would carry along untouched, are not modelled. The table has exactly 100 item columns, item `qN` at column `N - 1`.
- A table that lacks one of the columns `q1`..`q100` makes the script stop with a `KeyError` (at line 80 for a reverse-keyed item, at the first mean that needs it otherwise). The model has no such error path: `requires df.Length1 == ItemCount` and the fixed column positions exclude this case.
- The unused `traitNames` list and the unused imports `ExcelWriter`, `ExcelFile`, `nanmean` and `isnan` are not modelled, because the script never uses them.
- The script flips the listed columns as one block. The in-place method flips them one column at a time instead. Because the list has no repeats, the resulting table is the same.
