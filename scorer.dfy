/** The scoring script itself, on the response table it has read: the table
    is a grid of cells, one row per respondent and one column per item, that
    the script updates in place before it builds the score table. */
module Scorer {
  import opened Likert
  import opened Inventory
  import opened Averaging
  import opened Scoring

  /** The rows of the response table, as values. */
  function Contents(df: array2<Cell>): (rows: seq<Row>)
    reads df
  {
    seq(df.Length0, r requires 0 <= r < df.Length0 reads df =>
      seq(df.Length1, c requires 0 <= c < df.Length1 reads df => df[r, c]))
  }

  /** Reverses, in place, every reverse-keyed column of the table, one listed
      column at a time down all rows; every other column is left as it was. */
  method ReverseItems(df: array2<Cell>)
    requires df.Length1 == ItemCount
    modifies df
    ensures forall r, c :: 0 <= r < df.Length0 && 0 <= c < df.Length1 ==>
      df[r, c] == if IsReversalItem(c + 1) then Reverse(old(df[r, c])) else old(df[r, c])
    ensures Contents(df) == ReverseTable(old(Contents(df)))
  {
    ReversalItemsWellFormed();
    for k := 0 to |ReversalItems|
      invariant forall r, c :: 0 <= r < df.Length0 && 0 <= c < df.Length1 ==>
        df[r, c] == if c + 1 in ReversalItems[..k] then Reverse(old(df[r, c])) else old(df[r, c])
    {
      var column := ReversalItems[k] - 1;
      assert ReversalItems[k] !in ReversalItems[..k];
      for r := 0 to df.Length0
        invariant forall i, c :: 0 <= i < df.Length0 && 0 <= c < df.Length1 ==>
          df[i, c] == if c + 1 in ReversalItems[..k] || (c == column && i < r)
            then Reverse(old(df[i, c])) else old(df[i, c])
      {
        df[r, column] := Reverse(df[r, column]);
      }
      assert ReversalItems[..k + 1] == ReversalItems[..k] + [ReversalItems[k]];
    }
    assert ReversalItems[..|ReversalItems|] == ReversalItems;
    ghost var before := old(Contents(df));
    forall r | 0 <= r < df.Length0 ensures Contents(df)[r] == ReverseTable(before)[r] {
      forall c | 0 <= c < df.Length1 ensures Contents(df)[r][c] == ReverseTable(before)[r][c] {
      }
    }
  }

  /** The score row built up to scale t, extended by the next scale's mean. */
  lemma ScoreRowStep(row: Row, t: int)
    requires FullRow(row) && 0 <= t < |Traits|
    ensures ScoreRow(row)[..t + 1] == ScoreRow(row)[..t] + [TraitScore(row, Traits[t])]
  {
    var scores := ScoreRow(row);
    assert scores[..t + 1] == scores[..t] + [scores[t]];
  }

  /** Builds the score table one scale at a time, in column order: the mean of
      the scale's items in each row, merged row by row onto the columns built
      so far. Returns the column headers and the table. */
  method ComputeTraits(df: array2<Cell>) returns (columns: seq<string>, personality: seq<Scores>)
    requires df.Length1 == ItemCount
    ensures columns == ["Honesty-Humility", "Emotionality", "Extraversion", "Agreeableness",
                        "Conscientiousness", "Openness to Experience", "Altruism"]
    ensures FullTable(Contents(df)) && personality == ScoreTable(Contents(df))
  {
    var rows := Contents(df);
    assert FullTable(rows);
    columns := [];
    personality := seq(|rows|, r => []);
    for t := 0 to |Traits|
      invariant |columns| == t
      invariant forall i :: 0 <= i < t ==> columns[i] == Name(Traits[i])
      invariant |personality| == |rows|
      invariant forall r :: 0 <= r < |rows| ==> personality[r] == ScoreRow(rows[r])[..t]
    {
      var scale := Traits[t];
      var scores := seq(|rows|, r requires 0 <= r < |rows| => TraitScore(rows[r], scale));
      forall r | 0 <= r < |rows|
        ensures ScoreRow(rows[r])[..t + 1] == ScoreRow(rows[r])[..t] + [scores[r]]
      {
        ScoreRowStep(rows[r], t);
      }
      columns := columns + [Name(scale)];
      personality := seq(|rows|, r requires 0 <= r < |rows| => personality[r] + [scores[r]]);
    }
    forall r | 0 <= r < |rows| ensures personality[r] == ScoreTable(rows)[r] {
      assert ScoreRow(rows[r])[..|Traits|] == ScoreRow(rows[r]);
    }
  }

  /** The whole script between reading and writing: reverse the listed columns
      in place, then score every respondent. */
  method CalculatePersonality(df: array2<Cell>) returns (columns: seq<string>, personality: seq<Scores>)
    requires df.Length1 == ItemCount
    modifies df
    ensures Contents(df) == ReverseTable(old(Contents(df)))
    ensures columns == ["Honesty-Humility", "Emotionality", "Extraversion", "Agreeableness",
                        "Conscientiousness", "Openness to Experience", "Altruism"]
    ensures personality == Personality(old(Contents(df)))
  {
    ReverseItems(df);
    columns, personality := ComputeTraits(df);
  }
}
