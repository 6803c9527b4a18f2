/**
 * Task normalisation (home.py, lines 85-99), in the script's order: legacy
 * status spellings are folded, `Tache` and the completion rate get their
 * defaults, duplicate tasks are dropped (first wins), and finally an empty
 * status is inferred from the completion rate.
 *
 * The script turns the rate column into text at line 88, so only the
 * substituted 0 compares as a number at lines 97-99. Here the rate is already
 * a number (a blank rate is 0); the text behaviour is modelled in RateText.
 */
module Normalise {
  import opened Options
  import opened Text
  import opened Tasks
  import opened Seqs
  import Cleaning

  /** Line 85: exact-match replacement of the legacy spellings by "En cours". */
  function FoldSynonym(s: string): (r: string)
    ensures s in Synonyms ==> r == EnCours
    ensures r != s ==> s in Synonyms
    ensures IsCanonical(r) <==> s in Synonyms || IsCanonical(s)
  {
    if s in Synonyms then SynonymsPlain(s); EnCours else s
  }

  /** The sentinel for a task without a name. */
  const Undefined: string := "UNDEFINED"

  /** The sentinel is a visible word. */
  lemma UndefinedPlain()
    ensures IsStripped(Undefined) && !IsNullToken(Undefined)
  {
    assert |Undefined| == 9 && Undefined[0] == 'U' && Undefined[8] == 'D';
    PlainWord(Undefined);
  }

  /** Lines 87 and 89: the task name is stripped, and an empty one becomes "UNDEFINED". */
  function DefaultTache(s: string): (r: string)
    ensures IsStripped(r) && !IsNullToken(r)
    ensures !IsNullToken(Strip(s)) ==> r == Strip(s)
    ensures IsNullToken(Strip(s)) ==> r == Undefined
  {
    var t := Strip(s);
    if IsNullToken(t) then UndefinedPlain(); Undefined else t
  }

  /**
   * Lines 85 and 87-90 on one row: the status is folded (not yet stripped),
   * the task name and the rate get their defaults; the key cells, the deadline
   * and every other status are untouched.
   */
  function Prepare(t: RawTask): (r: Task)
    ensures KeyOfActivity(r) == ActivityKey(t.responsable, t.domaine, t.activite)
    ensures r.deadline == t.deadline
    ensures IsStripped(r.tache) && !IsNullToken(r.tache)
    ensures !IsNullToken(Strip(t.tache)) ==> r.tache == Strip(t.tache)
    ensures IsNullToken(Strip(t.tache)) ==> r.tache == Undefined
    ensures t.rate.None? ==> r.rate == 0.0
    ensures t.rate.Some? ==> r.rate == t.rate.value
    ensures t.statut in Synonyms ==> r.statut == EnCours
    ensures t.statut !in Synonyms ==> r.statut == t.statut
  {
    Task(t.responsable, t.domaine, t.activite, DefaultTache(t.tache), t.deadline,
         if t.rate.Some? then t.rate.value else 0.0, FoldSynonym(t.statut))
  }

  /**
   * Lines 96-99: the status is stripped; when it is then an empty token it is
   * inferred from the rate (0: pending, strictly between 0 and 100: in
   * progress, 100: done), and a rate outside [0, 100] leaves it as it is.
   */
  function InferStatus(statut: string, rate: real): (r: string)
    ensures IsStripped(r)
    ensures !IsNullToken(Strip(statut)) ==> r == Strip(statut)
    ensures IsNullToken(Strip(statut)) && rate == 0.0 ==> r == EnAttente
    ensures IsNullToken(Strip(statut)) && 0.0 < rate < 100.0 ==> r == EnCours
    ensures IsNullToken(Strip(statut)) && rate == 100.0 ==> r == Termine
    ensures IsNullToken(Strip(statut)) && (rate < 0.0 || rate > 100.0) ==> r == Strip(statut)
  {
    CanonicalStripped();
    var s := Strip(statut);
    if !IsNullToken(s) then s
    else if rate == 0.0 then EnAttente
    else if 0.0 < rate < 100.0 then EnCours
    else if rate == 100.0 then Termine
    else s
  }

  /**
   * Inference never replaces a real status: the result is either the stripped
   * input or one of the canonical statuses, and it is an empty token only
   * when the rate lies outside [0, 100].
   */
  lemma InferStatusKeepsOrFills(statut: string, rate: real)
    ensures var r := InferStatus(statut, rate);
      && (r == Strip(statut) || IsCanonical(r))
      && (IsNullToken(r) <==> IsNullToken(Strip(statut)) && (rate < 0.0 || rate > 100.0))
  {
    CanonicalStripped();
  }

  /** Inferring the status a second time changes nothing. */
  lemma InferStatusIdempotent(statut: string, rate: real)
    ensures InferStatus(InferStatus(statut, rate), rate) == InferStatus(statut, rate)
  {
    var r := InferStatus(statut, rate);
    InferStatusKeepsOrFills(statut, rate);
    if IsNullToken(r) {
      InferKeepsBlank(r, rate);
    } else {
      InferKeepsStatus(r, rate);
    }
  }

  /** Lines 96-99 on one row. */
  function WithInferredStatus(t: Task): (r: Task)
    ensures r.statut == InferStatus(t.statut, t.rate)
    ensures KeyOfTask(r) == KeyOfTask(t) && r.deadline == t.deadline && r.rate == t.rate
  {
    t.(statut := InferStatus(t.statut, t.rate))
  }

  /** A normalised row: clean keys, a named task, a stripped status. */
  predicate WellFormed(t: Task)
  {
    && !IsNullToken(t.domaine) && !IsNullToken(t.responsable) && !IsNullToken(t.activite)
    && IsStripped(t.domaine) && IsStripped(t.responsable) && IsStripped(t.activite)
    && IsStripped(t.tache) && !IsNullToken(t.tache)
    && IsStripped(t.statut)
    && (IsNullToken(t.statut) ==> t.rate < 0.0 || t.rate > 100.0)
  }

  /** One clean raw row, once prepared and given its inferred status, is well formed. */
  lemma PreparedWellFormed(c: RawTask)
    requires Cleaning.KeysPresent(c) && Cleaning.KeysStripped(c)
    ensures Ready(Prepare(c))
  {
    var p := Prepare(c);
    var w := WithInferredStatus(p);
    InferStatusKeepsOrFills(p.statut, p.rate);
    assert w.domaine == c.domaine && w.responsable == c.responsable && w.activite == c.activite;
    assert w.tache == p.tache && w.rate == p.rate && w.statut == InferStatus(p.statut, p.rate);
  }

  /** A prepared row that will be well formed once its status is inferred. */
  predicate Ready(t: Task)
  {
    WellFormed(WithInferredStatus(t))
  }

  /**
   * Lines 71-92: key cleaning, row preparation and deduplication. The prepared
   * rows keep their order, every task key among them survives, and no two
   * rows share one.
   */
  function PrepareRows(rows: seq<RawTask>): (r: seq<Task>)
    ensures |r| <= |rows|
    ensures forall i :: 0 <= i < |r| ==> Ready(r[i])
    ensures DistinctKeys(KeyOfTask, r)
    ensures IsSubsequence(r, Map(Prepare, Cleaning.CleanKeys(rows)))
    ensures KeysOf(KeyOfTask, r) == KeysOf(KeyOfTask, Map(Prepare, Cleaning.CleanKeys(rows)))
  {
    var clean := Cleaning.CleanKeys(rows);
    var prepared := Map(Prepare, clean);
    forall i | 0 <= i < |prepared| ensures Ready(prepared[i]) {
      PreparedWellFormed(clean[i]);
    }
    var unique := Dedup(KeyOfTask, prepared);
    SubsequenceAll(Ready, unique, prepared);
    unique
  }

  /** Every row is well formed. */
  predicate AllWellFormed(s: seq<Task>)
  {
    forall i :: 0 <= i < |s| ==> WellFormed(s[i])
  }

  /**
   * Lines 71-99: key cleaning, row preparation, deduplication, status
   * inference. Every task key of a kept row survives exactly once.
   */
  function NormaliseRows(rows: seq<RawTask>): (r: seq<Task>)
    ensures |r| <= |rows|
    ensures AllWellFormed(r)
    ensures DistinctKeys(KeyOfTask, r)
    ensures KeysOf(KeyOfTask, r) == KeysOf(KeyOfTask, Map(Prepare, Cleaning.CleanKeys(rows)))
  {
    var unique := PrepareRows(rows);
    var r := Map(WithInferredStatus, unique);
    KeysAgree(KeyOfTask, r, KeyOfTask, unique);
    assert AllWellFormed(r) by {
      forall i | 0 <= i < |r| ensures WellFormed(r[i]) {
        assert Ready(unique[i]);
      }
    }
    r
  }
  /**
   * Line 92, `keep='first'`, through the whole normaliser: the first prepared
   * row with a given task key is kept, with its status inferred.
   */
  lemma NormaliseKeepsFirst(rows: seq<RawTask>, j: int)
    requires var p := Map(Prepare, Cleaning.CleanKeys(rows)); 0 <= j < |p| && IsFirst(KeyOfTask, p, j)
    ensures WithInferredStatus(Map(Prepare, Cleaning.CleanKeys(rows))[j]) in NormaliseRows(rows)
  {
    var p := Map(Prepare, Cleaning.CleanKeys(rows));
    var u := PrepareRows(rows);
    DedupKeepsFirst(KeyOfTask, p, j);
    var k :| 0 <= k < |u| && u[k] == p[j];
    assert NormaliseRows(rows)[k] == WithInferredStatus(u[k]);
  }

  /**
   * Every normalised row is the first prepared row with its task key, with
   * its status inferred: a later duplicate never replaces it.
   */
  lemma NormaliseOnlyFirst(rows: seq<RawTask>, i: int, j: int)
    requires 0 <= i < |NormaliseRows(rows)|
    requires var p := Map(Prepare, Cleaning.CleanKeys(rows));
      0 <= j < |p| && IsFirst(KeyOfTask, p, j) && KeyOfTask(p[j]) == KeyOfTask(NormaliseRows(rows)[i])
    ensures NormaliseRows(rows)[i] == WithInferredStatus(Map(Prepare, Cleaning.CleanKeys(rows))[j])
  {
    var p := Map(Prepare, Cleaning.CleanKeys(rows));
    var u := PrepareRows(rows);
    assert NormaliseRows(rows)[i] == WithInferredStatus(u[i]);
    DedupOnlyFirst(KeyOfTask, p, u[i], j);
  }


  /** What a normalised row looks like when it is read back in as a raw row. */
  function AsRaw(t: Task): RawTask
  {
    RawTask(t.responsable, t.domaine, t.activite, t.tache, t.deadline, Some(t.rate), t.statut)
  }

  /** Line 85 applied to an already normalised row. */
  function FoldTask(t: Task): Task
  {
    t.(statut := FoldSynonym(t.statut))
  }

  /** A normalised row read back in has clean keys. */
  lemma ReloadKeysClean(t: Task)
    requires WellFormed(t)
    ensures Cleaning.KeysPresent(AsRaw(t)) && Cleaning.KeysStripped(AsRaw(t))
  {
  }

  /** A normalised row read back in is prepared into itself, with its status folded. */
  lemma ReloadPrepare(t: Task)
    requires WellFormed(t)
    ensures Prepare(AsRaw(t)) == FoldTask(t)
  {
    StripStripped(t.tache);
    assert DefaultTache(t.tache) == t.tache;
  }

  /** A stripped status that inference already left alone is left alone again after folding. */
  lemma FoldedStatusStable(s: string, rate: real)
    requires IsStripped(s)
    requires IsNullToken(s) ==> rate < 0.0 || rate > 100.0
    ensures InferStatus(FoldSynonym(s), rate) == FoldSynonym(s)
  {
    if s in Synonyms {
      CanonicalStripped();
      InferKeepsStatus(EnCours, rate);
    } else {
      StripStripped(s);
    }
  }

  /** The canonical statuses are stripped and are not empty tokens. */
  lemma CanonicalStripped()
    ensures IsStripped(EnCours) && !IsNullToken(EnCours)
    ensures IsStripped(EnAttente) && !IsNullToken(EnAttente)
    ensures IsStripped(Termine) && !IsNullToken(Termine)
  {
    assert |EnCours| == 8 && EnCours[0] == 'E' && EnCours[7] == 's';
    PlainWord(EnCours);
    assert |EnAttente| == 10 && EnAttente[0] == 'E' && EnAttente[9] == 'e';
    PlainWord(EnAttente);
    assert |Termine| == 8 && Termine[0] == 'T' && Termine[7] == 'e';
    PlainWord(Termine);
  }

  /** A stripped empty token with a rate outside [0, 100] passes inference unchanged. */
  lemma InferKeepsBlank(s: string, rate: real)
    requires IsStripped(s) && IsNullToken(s)
    requires rate < 0.0 || rate > 100.0
    ensures InferStatus(s, rate) == s
  {
    StripStripped(s);
  }

  /** A stripped, non-empty status passes inference unchanged. */
  lemma InferKeepsStatus(s: string, rate: real)
    requires IsStripped(s) && !IsNullToken(s)
    ensures InferStatus(s, rate) == s
  {
    StripStripped(s);
  }

  /** Inference leaves a folded normalised row alone. */
  lemma ReloadInfer(t: Task)
    requires WellFormed(t)
    ensures WithInferredStatus(FoldTask(t)) == FoldTask(t)
  {
    FoldedStatusStable(t.statut, t.rate);
  }

  /** Read back in, normalised rows pass key cleaning unchanged. */
  lemma ReloadCleanAll(n: seq<Task>)
    requires AllWellFormed(n)
    ensures Cleaning.CleanKeys(Map(AsRaw, n)) == Map(AsRaw, n)
  {
    var raw := Map(AsRaw, n);
    forall i | 0 <= i < |n| ensures Cleaning.KeysPresent(raw[i]) && Cleaning.KeysStripped(raw[i]) {
      ReloadKeysClean(n[i]);
    }
    Cleaning.CleanKeysOfClean(raw);
  }

  /** Read back in, normalised rows are prepared into themselves, with the legacy spellings folded. */
  lemma ReloadPrepareAll(n: seq<Task>)
    requires AllWellFormed(n)
    ensures Map(Prepare, Map(AsRaw, n)) == Map(FoldTask, n)
  {
    var raw := Map(AsRaw, n);
    forall i | 0 <= i < |n| ensures Prepare(raw[i]) == FoldTask(n[i]) {
      ReloadPrepare(n[i]);
    }
  }

  /** Inference leaves folded normalised rows alone. */
  lemma ReloadInferAll(n: seq<Task>)
    requires AllWellFormed(n)
    ensures Map(WithInferredStatus, Map(FoldTask, n)) == Map(FoldTask, n)
  {
    var folded := Map(FoldTask, n);
    forall i | 0 <= i < |n| ensures WithInferredStatus(folded[i]) == folded[i] {
      ReloadInfer(n[i]);
    }
  }

  /** Folding statuses does not touch task keys. */
  lemma FoldKeepsDistinct(n: seq<Task>)
    requires DistinctKeys(KeyOfTask, n)
    ensures DistinctKeys(KeyOfTask, Map(FoldTask, n))
  {
    var folded := Map(FoldTask, n);
    assert forall i :: 0 <= i < |n| ==> KeyOfTask(folded[i]) == KeyOfTask(n[i]);
  }

  /**
   * Normalising already normalised rows again drops nothing, merges nothing
   * and changes nothing except that it folds the legacy spellings the first
   * pass let through: folding (line 85) looks at the status before it is
   * stripped (line 96), so " encours" survives the first pass as "encours".
   */
  lemma NormaliseTwice(rows: seq<RawTask>)
    ensures NormaliseRows(Map(AsRaw, NormaliseRows(rows))) == Map(FoldTask, NormaliseRows(rows))
  {
    var n := NormaliseRows(rows);
    var folded := Map(FoldTask, n);
    ReloadCleanAll(n);
    ReloadPrepareAll(n);
    FoldKeepsDistinct(n);
    DedupDistinct(KeyOfTask, folded);
    assert PrepareRows(Map(AsRaw, n)) == folded;
    ReloadInferAll(n);
  }

  /**
   * Folding looks at the raw status, so a legacy spelling with a leading
   * space is not folded, and the later strip leaves the legacy spelling, a
   * status that none of the three per-status counts will see.
   */
  lemma PaddedSynonymSurvives(s: string, rate: real)
    requires s in Synonyms
    ensures FoldSynonym([' '] + s) == [' '] + s
    ensures InferStatus(FoldSynonym([' '] + s), rate) == s
    ensures !IsCanonical(s)
  {
    SynonymsPlain(s);
    PaddedKept(s, rate);
  }

  /** The legacy spellings have no surrounding space, are not blank, and are not canonical. */
  lemma SynonymsPlain(s: string)
    requires s in Synonyms
    ensures IsStripped(s) && !IsNullToken(s) && !IsCanonical(s)
    ensures [' '] + s !in Synonyms
  {
    if s == Synonyms[0] {
      assert |s| == 20;
    } else {
      assert |s| == 7;
    }
  }

  /** A padded stripped word escapes folding and is then stripped back to itself. */
  lemma PaddedKept(s: string, rate: real)
    requires IsStripped(s) && !IsNullToken(s) && [' '] + s !in Synonyms
    ensures FoldSynonym([' '] + s) == [' '] + s
    ensures InferStatus([' '] + s, rate) == s
  {
    StripLeadingSpace(' ', s);
    StripStripped(s);
  }

  /** When no legacy spelling survives, normalisation is idempotent. */
  lemma NormaliseIdempotent(rows: seq<RawTask>)
    requires forall i :: 0 <= i < |NormaliseRows(rows)| ==> NormaliseRows(rows)[i].statut !in Synonyms
    ensures NormaliseRows(Map(AsRaw, NormaliseRows(rows))) == NormaliseRows(rows)
  {
    NormaliseTwice(rows);
    var n := NormaliseRows(rows);
    assert Map(FoldTask, n) == n;
  }
}
