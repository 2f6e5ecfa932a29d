/** Item responses on the five-point Likert scale of the HEXACO-100 inventory,
    and the polarity reversal that is applied to reverse-keyed items. */
module Likert {

  /** A value that may be absent. */
  datatype Option<+T> = None | Some(value: T)

  /** One response cell of the table: an integer answer, or None for a missing
      answer (an empty cell, which the table holds as NaN). */
  type Cell = Option<int>

  /** The answers the inventory allows: 1 (strongly disagree) .. 5 (strongly agree). */
  predicate InScale(v: int) {
    1 <= v <= 5
  }

  /** A cell that is missing or holds an answer on the scale. */
  predicate ValidCell(c: Cell) {
    c.None? || InScale(c.value)
  }

  /** A cell that holds an answer on the scale. */
  predicate AnsweredCell(c: Cell) {
    c.Some? && InScale(c.value)
  }

  /** The reversal of one answer, branch by branch: 1 and 5 swap, 2 and 4 swap,
      3 stays. Any other cell, a missing one included, matches no branch and
      gives no value. The result is the mirror image 6 - v of an answer on the
      scale and stays on the scale. */
  function Reverse(item: Cell): (r: Cell)
    ensures r.Some? <==> AnsweredCell(item)
    ensures r.Some? ==> r.value == 6 - item.value && InScale(r.value)
  {
    match item
    case None => None
    case Some(v) =>
      if v == 1 then Some(5)
      else if v == 2 then Some(4)
      else if v == 3 then Some(3)
      else if v == 4 then Some(2)
      else if v == 5 then Some(1)
      else None
  }

  /** Reversal undoes itself on every cell that is missing or on the scale. */
  lemma ReverseInvolution(c: Cell)
    requires ValidCell(c)
    ensures Reverse(Reverse(c)) == c
  {
  }

  /** A missing answer stays missing, and so does any value off the scale. */
  lemma ReverseMissing(c: Cell)
    requires !AnsweredCell(c)
    ensures Reverse(c) == None
  {
  }
}
