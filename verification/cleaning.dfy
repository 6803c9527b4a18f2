/**
 * Key cleaning (home.py, lines 71-82): the three key columns are stripped, and a
 * row is dropped when any of them is one of the empty tokens.
 */
module Cleaning {
  import opened Text
  import opened Tasks
  import opened Seqs

  /** Strips `Domaine`, `Responsable` and `Activité`; the other cells are untouched. */
  function StripKeys(t: RawTask): RawTask
  {
    t.(domaine := Strip(t.domaine), responsable := Strip(t.responsable), activite := Strip(t.activite))
  }

  /** Lines 75-81: none of the three key cells is an empty token; in particular none is blank. */
  predicate KeysPresent(t: RawTask)
    ensures KeysPresent(t) ==> t.domaine != "" && t.responsable != "" && t.activite != ""
  {
    !IsNullToken(t.domaine) && !IsNullToken(t.responsable) && !IsNullToken(t.activite)
  }

  predicate KeysStripped(t: RawTask)
  {
    IsStripped(t.domaine) && IsStripped(t.responsable) && IsStripped(t.activite)
  }

  /** The key-stripped rows, in input order. */
  function StripAll(rows: seq<RawTask>): (r: seq<RawTask>)
    ensures |r| == |rows|
    ensures forall i :: 0 <= i < |rows| ==> r[i] == StripKeys(rows[i])
    ensures forall i :: 0 <= i < |r| ==> KeysStripped(r[i])
  {
    Map(StripKeys, rows)
  }

  /**
   * The rows kept by the mask, with their key cells stripped: each kept row has
   * stripped, present keys; the kept rows appear in input order; and a row is
   * kept exactly when its stripped keys are present.
   */
  function CleanKeys(rows: seq<RawTask>): (r: seq<RawTask>)
    ensures |r| <= |rows|
    ensures forall i :: 0 <= i < |r| ==> KeysPresent(r[i]) && KeysStripped(r[i])
    ensures IsSubsequence(r, StripAll(rows))
    ensures forall i :: 0 <= i < |rows| ==> (StripAll(rows)[i] in r <==> KeysPresent(StripAll(rows)[i]))
  {
    var stripped := StripAll(rows);
    var r := Filter(KeysPresent, stripped);
    SubsequenceAll(KeysStripped, r, stripped);
    assert forall i :: 0 <= i < |rows| ==> stripped[i] in stripped;
    r
  }

  /** Stripping leaves a row whose key cells are already stripped as it is. */
  lemma CleanRowFixed(t: RawTask)
    requires KeysStripped(t)
    ensures StripKeys(t) == t
  {
    StripStripped(t.domaine);
    StripStripped(t.responsable);
    StripStripped(t.activite);
  }

  /** Rows whose key cells are already clean pass key cleaning unchanged. */
  lemma CleanKeysOfClean(rows: seq<RawTask>)
    requires forall i :: 0 <= i < |rows| ==> KeysPresent(rows[i]) && KeysStripped(rows[i])
    ensures CleanKeys(rows) == rows
  {
    forall i | 0 <= i < |rows| ensures StripKeys(rows[i]) == rows[i] {
      CleanRowFixed(rows[i]);
    }
    assert StripAll(rows) == rows;
    FilterAll(KeysPresent, rows);
  }

  /** Cleaning the keys a second time drops nothing and changes nothing. */
  lemma CleanKeysIdempotent(rows: seq<RawTask>)
    ensures CleanKeys(CleanKeys(rows)) == CleanKeys(rows)
  {
    CleanKeysOfClean(CleanKeys(rows));
  }
}
