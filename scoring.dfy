/** The scoring rubric on values: reversal of the reverse-keyed columns of a
    respondent's row, and the per-scale means over the reversed row. */
module Scoring {
  import opened Likert
  import opened Inventory
  import opened Averaging

  /** One respondent's answers; cell q - 1 holds item qN. */
  type Row = seq<Cell>

  /** One respondent's scores, one per entry of Traits. */
  type Scores = seq<Option<real>>

  /** A row that holds a column for every item of the inventory. */
  predicate FullRow(row: Row) {
    |row| == ItemCount
  }

  predicate FullTable(rows: seq<Row>) {
    forall r :: 0 <= r < |rows| ==> FullRow(rows[r])
  }

  /** Every cell is missing or on the scale. */
  predicate ValidRow(row: Row) {
    forall i :: 0 <= i < |row| ==> ValidCell(row[i])
  }

  /** Every cell holds an answer on the scale. */
  predicate AnsweredRow(row: Row) {
    forall i :: 0 <= i < |row| ==> AnsweredCell(row[i])
  }

  /** The row with every reverse-keyed column reversed and every other column
      as it was. */
  function ReverseRow(row: Row): (r: Row)
    ensures |r| == |row|
    ensures forall i :: 0 <= i < |row| && !IsReversalItem(i + 1) ==> r[i] == row[i]
    ensures forall i :: 0 <= i < |row| && IsReversalItem(i + 1) ==>
      (r[i].Some? <==> AnsweredCell(row[i])) && (r[i].Some? ==> r[i].value == 6 - row[i].value)
  {
    seq(|row|, i requires 0 <= i < |row| => if IsReversalItem(i + 1) then Reverse(row[i]) else row[i])
  }

  /** Every row of the table reversed, in the same order: listed columns
      reversed, every other column as it was. */
  function ReverseTable(rows: seq<Row>): (r: seq<Row>)
    ensures |r| == |rows|
    ensures forall k :: 0 <= k < |rows| ==> |r[k]| == |rows[k]|
    ensures forall k, i :: 0 <= k < |rows| && 0 <= i < |rows[k]| && !IsReversalItem(i + 1) ==>
      r[k][i] == rows[k][i]
    ensures forall k, i :: 0 <= k < |rows| && 0 <= i < |rows[k]| && IsReversalItem(i + 1) ==>
      (r[k][i].Some? <==> AnsweredCell(rows[k][i])) && (r[k][i].Some? ==> r[k][i].value == 6 - rows[k][i].value)
  {
    seq(|rows|, k requires 0 <= k < |rows| => ReverseRow(rows[k]))
  }

  /** The cells of a row that hold the given items, in the given order. */
  function GroupCells(row: Row, items: seq<int>): seq<Cell>
    requires forall k :: 0 <= k < |items| ==> 1 <= items[k] <= |row|
  {
    seq(|items|, k requires 0 <= k < |items| => row[items[k] - 1])
  }

  /** The score of one scale: the mean of the present values of its items. */
  function TraitScore(row: Row, t: Trait): Option<real>
    requires FullRow(row)
  {
    ItemsInRange(t);
    Mean(GroupCells(row, Items(t)))
  }

  /** One respondent's scores, in the column order of Traits. */
  function ScoreRow(row: Row): (scores: Scores)
    requires FullRow(row)
    ensures |scores| == |Traits|
  {
    seq(|Traits|, i requires 0 <= i < |Traits| => TraitScore(row, Traits[i]))
  }

  /** The scores of every respondent: one row of seven scores per input row,
      in the same order. */
  function ScoreTable(rows: seq<Row>): (table: seq<Scores>)
    requires FullTable(rows)
    ensures |table| == |rows|
    ensures forall k :: 0 <= k < |rows| ==> |table[k]| == |Traits|
  {
    seq(|rows|, k requires 0 <= k < |rows| => ScoreRow(rows[k]))
  }

  /** What the scoring script computes from the table it reads: reversal, then
      the seven means. */
  function Personality(rows: seq<Row>): (table: seq<Scores>)
    requires FullTable(rows)
    ensures |table| == |rows|
    ensures forall k :: 0 <= k < |rows| ==> table[k] == ScoreRow(ReverseRow(rows[k]))
  {
    ScoreTable(ReverseTable(rows))
  }

  /** Reversing the same columns twice gives back a row whose cells are all
      missing or on the scale. */
  lemma ReverseRowInvolution(row: Row)
    requires ValidRow(row)
    ensures ReverseRow(ReverseRow(row)) == row
  {
    forall i | 0 <= i < |row| ensures ReverseRow(ReverseRow(row))[i] == row[i] {
      ReverseInvolution(row[i]);
    }
  }

  /** Reversal keeps a row on the scale: a valid row stays valid, an answered
      row stays answered, and a missing cell stays missing. */
  lemma ReverseRowKeepsScale(row: Row)
    ensures ValidRow(row) ==> ValidRow(ReverseRow(row))
    ensures AnsweredRow(row) ==> AnsweredRow(ReverseRow(row))
    ensures forall i :: 0 <= i < |row| && row[i].None? ==> ReverseRow(row)[i].None?
  {
  }

  /** The score table has one row per respondent, in the same order: the
      scores of a table are the scores of its parts, put one after the other,
      and each row has one score per scale. */
  lemma PersonalityRowAligned(a: seq<Row>, b: seq<Row>)
    requires FullTable(a) && FullTable(b)
    ensures FullTable(a + b)
    ensures Personality(a + b) == Personality(a) + Personality(b)
    ensures forall k :: 0 <= k < |a + b| ==> |Personality(a + b)[k]| == |Traits| == 7
  {
    var ab := a + b;
    assert FullTable(ab) by {
      forall k | 0 <= k < |ab| ensures FullRow(ab[k]) {
        if k >= |a| {
          assert ab[k] == b[k - |a|];
        }
      }
    }
  }

  /** No item of the list has an answer in the row. */
  predicate NoneAnswered(row: Row, items: seq<int>) {
    forall k :: 0 <= k < |items| && 1 <= items[k] <= |row| ==> row[items[k] - 1].None?
  }

  /** A group of a valid row scores nothing exactly when every one of its
      items is missing: reversal neither loses nor creates an answer. */
  lemma GroupScoreMissing(row: Row, items: seq<int>)
    requires ValidRow(row)
    requires forall k :: 0 <= k < |items| ==> 1 <= items[k] <= |row|
    ensures Mean(GroupCells(ReverseRow(row), items)).None? <==> NoneAnswered(row, items)
  {
    var cells := GroupCells(ReverseRow(row), items);
    forall k | 0 <= k < |items| ensures cells[k].None? <==> row[items[k] - 1].None? {
    }
  }

  /** A scale's score is missing exactly when every one of its items is
      missing, in a row of valid answers. */
  lemma TraitScoreMissing(row: Row, t: Trait)
    requires FullRow(row) && ValidRow(row)
    ensures TraitScore(ReverseRow(row), t).None? <==> NoneAnswered(row, Items(t))
  {
    ItemsWellFormed(t);
    GroupScoreMissing(row, Items(t));
  }

  /** A non-empty group of a fully answered row has a score between 1 and 5. */
  lemma GroupScoreInScale(row: Row, items: seq<int>)
    requires AnsweredRow(row) && |items| > 0
    requires forall k :: 0 <= k < |items| ==> 1 <= items[k] <= |row|
    ensures Mean(GroupCells(row, items)).Some?
    ensures 1.0 <= Mean(GroupCells(row, items)).value <= 5.0
  {
    var cells := GroupCells(row, items);
    assert cells[0].Some?;
    MeanBetween(cells, 1, 5);
  }

  /** A respondent who answered every item gets a score between 1 and 5 on
      every scale. */
  lemma AnsweredRowScores(row: Row)
    requires FullRow(row) && AnsweredRow(row)
    ensures forall i :: 0 <= i < |Traits| ==>
      ScoreRow(ReverseRow(row))[i].Some? &&
      1.0 <= ScoreRow(ReverseRow(row))[i].value <= 5.0
  {
    ReverseRowKeepsScale(row);
    forall t: Trait ensures TraitScore(ReverseRow(row), t).Some? && 1.0 <= TraitScore(ReverseRow(row), t).value <= 5.0 {
      ItemsWellFormed(t);
      GroupScoreInScale(ReverseRow(row), Items(t));
    }
  }

  /** A respondent with missing answers still gets, on every scale where an
      answer is present, a score between 1 and 5. */
  lemma ValidRowScores(row: Row)
    requires FullRow(row) && ValidRow(row)
    ensures forall i :: 0 <= i < |Traits| && ScoreRow(ReverseRow(row))[i].Some? ==>
      1.0 <= ScoreRow(ReverseRow(row))[i].value <= 5.0
  {
    ReverseRowKeepsScale(row);
    forall t: Trait | TraitScore(ReverseRow(row), t).Some?
      ensures 1.0 <= TraitScore(ReverseRow(row), t).value <= 5.0
    {
      ItemsInRange(t);
      MeanBetween(GroupCells(ReverseRow(row), Items(t)), 1, 5);
    }
  }

  /** A respondent who answered 3 everywhere scores 3 on every scale: the
      midpoint is its own reversal. */
  lemma NeutralRowScores(row: Row)
    requires FullRow(row)
    requires forall i :: 0 <= i < |row| ==> row[i] == Some(3)
    ensures ScoreRow(ReverseRow(row)) == seq(|Traits|, i => Some(3.0))
  {
    var reversed := ReverseRow(row);
    assert forall i :: 0 <= i < |reversed| ==> reversed[i] == Some(3);
    forall t: Trait ensures TraitScore(reversed, t) == Some(3.0) {
      ItemsWellFormed(t);
      var cells := GroupCells(reversed, Items(t));
      assert cells[0].Some?;
      MeanOfConstant(cells, 3);
    }
  }

  /** Altruism with q97 = 5, q98 = 5, q99 missing and q100 = 1: q100 is
      reverse-keyed and reads 5, q99 is skipped, and the score is 5. */
  lemma AltruismExample(row: Row)
    requires FullRow(row)
    requires row[96] == Some(5) && row[97] == Some(5) && row[98] == None && row[99] == Some(1)
    ensures TraitScore(ReverseRow(row), Altruism) == Some(5.0)
  {
    ReversalByScale(97);
    ReversalByScale(98);
    ReversalByScale(100);
    var reversed := ReverseRow(row);
    assert reversed[96] == Some(5) && reversed[97] == Some(5) && reversed[98] == None && reversed[99] == Some(5);
    var cells := GroupCells(reversed, Items(Altruism));
    assert cells == [reversed[96], reversed[97], reversed[98], reversed[99]];
    assert cells[0].Some?;
    MeanOfConstant(cells, 5);
  }
}
