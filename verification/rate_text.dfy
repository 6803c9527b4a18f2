/**
 * The completion-rate column as home.py actually handles it. Line 88 casts
 * the column to text and strips it; line 90 puts the integer 0 in place of
 * the empty tokens; so every other rate is a string. Line 97 compares with
 * `== 0`, which a string never satisfies, and line 98 compares the whole
 * column with `> 0`, which raises a TypeError as soon as one cell is a
 * string. The rest of the model uses the numeric rate of
 * Normalise.InferStatus instead.
 */
module RateText {
  import opened Options
  import opened Text
  import opened Tasks
  import Normalise

  /** A cell of the rate column after lines 88-90. */
  datatype RateCell = IntZero | Chars(s: string)

  /** Lines 88 and 90 on one cell, given as the text `astype(str)` makes of it. */
  function RateCellOf(cell: string): (r: RateCell)
    ensures r.IntZero? <==> IsNullToken(Strip(cell))
    ensures r.Chars? ==> r.s == Strip(cell)
  {
    var s := Strip(cell);
    if IsNullToken(s) then IntZero else Chars(s)
  }

  /** What lines 96-99 read of a row. */
  datatype Row = Row(statut: string, rate: RateCell)

  /** Lines 96-97 for a row whose rate is the integer 0. */
  function InferFromZero(statut: string): (r: string)
    ensures IsNullToken(Strip(statut)) ==> r == EnAttente
    ensures !IsNullToken(Strip(statut)) ==> r == Strip(statut)
  {
    var s := Strip(statut);
    if IsNullToken(s) then EnAttente else s
  }

  /**
   * Lines 96-99 on the whole column as written: `None` stands for the
   * TypeError of line 98, raised when any cell holds text. Without text cells
   * every rate is 0, lines 98 and 99 change nothing, and line 97 fills the
   * empty statuses with "En attente".
   */
  function InferColumnAsWritten(rows: seq<Row>): (r: Option<seq<string>>)
    ensures r.None? <==> exists i :: 0 <= i < |rows| && rows[i].rate.Chars?
    ensures r.Some? ==> |r.value| == |rows|
    ensures r.Some? ==> forall i :: 0 <= i < |rows| ==> r.value[i] == InferFromZero(rows[i].statut)
  {
    if exists i :: 0 <= i < |rows| && rows[i].rate.Chars? then None
    else Some(seq(|rows|, i requires 0 <= i < |rows| => InferFromZero(rows[i].statut)))
  }

  /**
   * Where the two agree: with every rate cell blank, the column as written is
   * what the numeric inference gives with rate 0.
   */
  lemma AgreesOnBlankRates(rows: seq<Row>)
    requires forall i :: 0 <= i < |rows| ==> rows[i].rate.IntZero?
    ensures InferColumnAsWritten(rows).Some?
    ensures forall i :: 0 <= i < |rows| ==> InferColumnAsWritten(rows).value[i] == Normalise.InferStatus(rows[i].statut, 0.0)
  {
  }

  /** A cell whose text is already stripped and not blank stays text. */
  lemma TextCellStays(cell: string)
    requires IsStripped(cell) && !IsNullToken(cell)
    ensures RateCellOf(cell) == Chars(cell)
  {
    StripStripped(cell);
  }

  lemma BlankInProgress(rate: real)
    requires 0.0 < rate < 100.0
    ensures Normalise.InferStatus("", rate) == EnCours
  {
  }

  /** A single row whose rate is text makes the column as written fail, whatever its status. */
  lemma TextCellRaises(statut: string, s: string)
    ensures InferColumnAsWritten([Row(statut, Chars(s))]).None?
  {
    assert [Row(statut, Chars(s))][0].rate.Chars?;
  }

  /**
   * The discrepancy: one task with an empty status and a rate written as a
   * visible text such as "50" makes the column as written
   * fail, where the numeric inference with a rate strictly between 0 and 100
   * gives "En cours".
   */
  lemma TextRateRaises(cell: string, rate: real)
    requires IsStripped(cell) && !IsNullToken(cell)
    requires 0.0 < rate < 100.0
    ensures InferColumnAsWritten([Row("", RateCellOf(cell))]).None?
    ensures Normalise.InferStatus("", rate) == EnCours
  {
    TextCellStays(cell);
    TextCellRaises("", cell);
    BlankInProgress(rate);
  }
}
