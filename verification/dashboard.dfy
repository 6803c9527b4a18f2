/**
 * The sidebar filter and the "no data" stop (home.py, lines 112-127), and the
 * activity table it feeds (lines 130-148).
 */
module Dashboard {
  import opened Tasks
  import opened Seqs
  import opened Grouping

  /**
   * The three multiselect choices. An empty choice means "no restriction on
   * that column".
   */
  datatype Selection = Selection(domaines: set<string>, responsables: set<string>, statuts: set<string>)

  const NoSelection: Selection := Selection({}, {}, {})

  /** The mask of lines 112-120: each non-empty choice must contain the row's value. */
  predicate Admits(sel: Selection, t: Task)
    ensures sel == NoSelection ==> Admits(sel, t)
    ensures Admits(sel, t) && sel.domaines != {} ==> t.domaine in sel.domaines
    ensures Admits(sel, t) && sel.responsables != {} ==> t.responsable in sel.responsables
    ensures Admits(sel, t) && sel.statuts != {} ==> t.statut in sel.statuts
  {
    && (sel.domaines == {} || t.domaine in sel.domaines)
    && (sel.responsables == {} || t.responsable in sel.responsables)
    && (sel.statuts == {} || t.statut in sel.statuts)
  }

  /** Line 122, `df[mask]`: the rows the selection admits, in input order. */
  function ApplyFilter(rows: seq<Task>, sel: Selection): (r: seq<Task>)
    ensures IsSubsequence(r, rows)
    ensures forall i :: 0 <= i < |r| ==> Admits(sel, r[i])
    ensures forall t :: t in r <==> t in rows && Admits(sel, t)
  {
    Filter((t: Task) => Admits(sel, t), rows)
  }

  /** With no choice made in any of the three lists, every row is kept. */
  lemma NoSelectionKeepsAll(rows: seq<Task>)
    ensures ApplyFilter(rows, NoSelection) == rows
  {
    FilterAll((t: Task) => Admits(NoSelection, t), rows);
  }

  /** What the page shows: the warning and stop of lines 125-127, or the activity table. */
  datatype View = NoData | Table(acts: seq<Activity>)

  /**
   * Lines 112-148: the script stops with a warning exactly when no row passes
   * the filter; otherwise the table has one row per activity of the filtered
   * tasks, and their task counts add up to the number of filtered tasks.
   */
  function Render(rows: seq<Task>, sel: Selection): (v: View)
    ensures v.NoData? <==> forall i :: 0 <= i < |rows| ==> !Admits(sel, rows[i])
    ensures v.Table? ==> |v.acts| >= 1 && DistinctKeys(KeyOf, v.acts)
    ensures v.Table? ==> KeysOf(KeyOf, v.acts) == KeysOf(KeyOfActivity, ApplyFilter(rows, sel))
    ensures v.Table? ==> SumTotals(v.acts) == |ApplyFilter(rows, sel)|
  {
    var filtered := ApplyFilter(rows, sel);
    if |filtered| == 0 then
      assert forall i :: 0 <= i < |rows| ==> rows[i] in rows;
      NoData
    else
      assert filtered[0] in rows;
      AggregateTotals(filtered);
      assert KeyOfActivity(filtered[0]) in KeysOf(KeyOfActivity, filtered);
      Table(Aggregate(filtered))
  }
}
