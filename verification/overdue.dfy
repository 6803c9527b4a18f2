/**
 * Late activities and the headline figures (home.py, lines 163-167 and
 * 236-240). "Now" is a parameter: the script reads the wall clock.
 */
module Overdue {
  import opened Tasks
  import opened Seqs
  import opened Grouping

  /**
   * Lines 166 and 237-240: a latest deadline that exists and lies strictly
   * before now, and a completion rate below 100. A missing deadline (NaT)
   * never compares as earlier.
   */
  predicate IsOverdue(a: Activity, now: Date)
    ensures IsOverdue(a, now) ==> !Done(a)
    ensures a.deadline.None? ==> !IsOverdue(a, now)
    ensures IsOverdue(a, now) ==> a.deadline.value < now
  {
    a.deadline.Some? && a.deadline.value < now && a.rate < 100.0
  }

  /** Lines 237-240, the `retard` table: the late activities, in table order. */
  function Late(acts: seq<Activity>, now: Date): (r: seq<Activity>)
    ensures IsSubsequence(r, acts)
    ensures forall i :: 0 <= i < |r| ==> r[i].deadline.Some? && r[i].deadline.value < now && r[i].rate < 100.0
    ensures forall a :: a in r <==> a in acts && IsOverdue(a, now)
  {
    Filter((a: Activity) => IsOverdue(a, now), acts)
  }

  /**
   * An activity is late exactly when at least one of its tasks has a
   * deadline, every task deadline lies before now, and not all of its tasks
   * are done. In particular a finished or undated activity is never late.
   */
  lemma OverdueMeaning(rep: Task, rows: seq<Task>, now: Date)
    requires rep in rows
    ensures var a := Summarise(rep, rows); var g := Group(rows, KeyOfActivity(rep));
      IsOverdue(a, now) <==>
        && (exists i :: 0 <= i < |g| && g[i].deadline.Some?)
        && (forall i :: 0 <= i < |g| && g[i].deadline.Some? ==> g[i].deadline.value < now)
        && !(forall i :: 0 <= i < |g| ==> g[i].statut == Termine)
  {
    RollupMeaning(rep, rows);
  }

  /**
   * Line 164: a finished activity has rate 100. With the exact rate of line
   * 140, that means every task of the activity is done.
   */
  predicate Done(a: Activity)
    ensures Done(a) && a.total > 0 && a.rate == CompletionRate(a.realisees, a.total) ==> a.realisees == a.total
  {
    a.rate == 100.0
  }

  /** Line 165: the rolled-up status is "En cours", so it is neither of the other two. */
  predicate Ongoing(a: Activity)
    ensures Ongoing(a) ==> a.statut != EnAttente && a.statut != Termine
  {
    CanonicalDistinct();
    a.statut == EnCours
  }

  /** Line 167: the rolled-up status is "En attente", so it is neither of the other two. */
  predicate Waiting(a: Activity)
    ensures Waiting(a) ==> a.statut != EnCours && a.statut != Termine
  {
    CanonicalDistinct();
    a.statut == EnAttente
  }

  /** The five metrics of lines 163-167, in their order on the page. */
  datatype Kpis = Kpis(activities: nat, terminees: nat, enCours: nat, enRetard: nat, enAttente: nat)

  /**
   * Lines 163-167: the number of activities, of finished ones (rate 100), of
   * "En cours" ones, of late ones and of "En attente" ones.
   */
  function ComputeKpis(acts: seq<Activity>, now: Date): (k: Kpis)
    ensures k.activities == |acts|
    ensures k.terminees == |Filter(Done, acts)| && k.enRetard == |Late(acts, now)|
    ensures k.enCours == |Filter(Ongoing, acts)| && k.enAttente == |Filter(Waiting, acts)|
    ensures k.terminees <= k.activities && k.enCours <= k.activities && k.enAttente <= k.activities
    ensures k.enRetard <= k.activities
    ensures k.enRetard + k.terminees <= k.activities
  {
    var late := Late(acts, now);
    var done := Filter(Done, acts);
    assert forall a :: a in late ==> !Done(a);
    SelectionsDisjoint(acts, now);
    Kpis(|acts|, |done|, |Filter(Ongoing, acts)|, |late|, |Filter(Waiting, acts)|)
  }

  /** Late and finished activities are disjoint selections of the table. */
  lemma SelectionsDisjoint(acts: seq<Activity>, now: Date)
    ensures |Late(acts, now)| + |Filter(Done, acts)| <= |acts|
  {
    FilterDisjoint((a: Activity) => IsOverdue(a, now), Done, acts);
  }

  /**
   * On the activity table, the "done" metric (rate 100, line 164) counts the
   * "Terminée" activities, and done, in progress and pending add up to the
   * number of activities: unlike task statuses, rolled-up statuses are always
   * one of the three.
   */
  lemma KpisPartition(rows: seq<Task>, now: Date)
    ensures var k := ComputeKpis(Aggregate(rows), now);
      k.terminees + k.enCours + k.enAttente == k.activities
  {
    var acts := Aggregate(rows);
    AggregateSummarises(rows);
    var reps := Dedup(KeyOfActivity, rows);
    forall i | 0 <= i < |acts|
      ensures (Done(acts[i]) || Ongoing(acts[i]) || Waiting(acts[i]))
      ensures !(Done(acts[i]) && Ongoing(acts[i])) && !(Done(acts[i]) && Waiting(acts[i])) && !(Ongoing(acts[i]) && Waiting(acts[i]))
    {
      RollupMeaning(reps[i], rows);
    }
    FilterPartition(Done, Ongoing, Waiting, acts);
  }
}
