/**
 * Per-activity aggregation (home.py, lines 130-148): the filtered tasks are
 * grouped by `(Responsable, Domaine, Activité)`; each group yields its task
 * count, its per-status counts, its latest deadline, its completion
 * percentage and a rolled-up status.
 */
module Grouping {
  import opened Options
  import opened Tasks
  import opened Seqs

  /** One output row of the group-by, after lines 140 and 148. */
  datatype Activity = Activity(
    responsable: string,
    domaine: string,
    activite: string,
    total: nat,
    realisees: nat,
    enCours: nat,
    enAttente: nat,
    deadline: Option<Date>,
    rate: real,
    statut: string)

  function KeyOf(a: Activity): ActivityKey
  {
    ActivityKey(a.responsable, a.domaine, a.activite)
  }

  /** The tasks of one activity, in input order. */
  function Group(rows: seq<Task>, k: ActivityKey): (g: seq<Task>)
    ensures forall t :: t in g <==> t in rows && KeyOfActivity(t) == k
    ensures IsSubsequence(g, rows)
  {
    Filter((t: Task) => KeyOfActivity(t) == k, rows)
  }

  lemma GroupSnoc(rows: seq<Task>, x: Task, k: ActivityKey)
    ensures Group(rows + [x], k) == if KeyOfActivity(x) == k then Group(rows, k) + [x] else Group(rows, k)
  {
    FilterSnoc((t: Task) => KeyOfActivity(t) == k, rows, x);
  }

  function StatusOf(t: Task): string
  {
    t.statut
  }

  /** The number of tasks whose status is exactly `s` (lines 132-134). */
  function CountStatus(g: seq<Task>, s: string): (n: nat)
    ensures n <= |g|
    ensures n == 0 <==> forall i :: 0 <= i < |g| ==> g[i].statut != s
    decreases |g|
  {
    if |g| == 0 then 0
    else
      assert forall i :: 0 <= i < |g| - 1 ==> g[..|g| - 1][i] == g[i];
      CountStatus(g[..|g| - 1], s) + (if g[|g| - 1].statut == s then 1 else 0)
  }

  /** A per-status count is the multiplicity of that status among the group's statuses. */
  lemma {:induction false} CountStatusMultiplicity(g: seq<Task>, s: string)
    ensures CountStatus(g, s) == multiset(Map(StatusOf, g))[s]
    decreases |g|
  {
    if |g| > 0 {
      var init := g[..|g| - 1];
      CountStatusMultiplicity(init, s);
      assert Map(StatusOf, g) == Map(StatusOf, init) + [g[|g| - 1].statut];
    }
  }

  /** The count reaches the group size exactly when every task has that status. */
  lemma {:induction false} CountStatusAll(g: seq<Task>, s: string)
    ensures CountStatus(g, s) == |g| <==> forall i :: 0 <= i < |g| ==> g[i].statut == s
    decreases |g|
  {
    if |g| > 0 {
      var init := g[..|g| - 1];
      CountStatusAll(init, s);
      assert forall i :: 0 <= i < |g| - 1 ==> init[i] == g[i];
    }
  }

  /**
   * The three per-status counts never exceed the group size, and they add up
   * to it exactly when every status in the group is canonical.
   */
  lemma {:induction false} StatusCountsBound(g: seq<Task>)
    ensures CountStatus(g, Termine) + CountStatus(g, EnCours) + CountStatus(g, EnAttente) <= |g|
    ensures CountStatus(g, Termine) + CountStatus(g, EnCours) + CountStatus(g, EnAttente) == |g|
            <==> forall i :: 0 <= i < |g| ==> IsCanonical(g[i].statut)
    decreases |g|
  {
    if |g| > 0 {
      var init := g[..|g| - 1];
      StatusCountsBound(init);
      assert forall i :: 0 <= i < |g| - 1 ==> init[i] == g[i];
    }
  }

  /**
   * Line 135, `max` of the deadlines: the latest present deadline, or `None`
   * when no task of the group has one.
   */
  function MaxDeadline(g: seq<Task>): (r: Option<Date>)
    ensures r.None? <==> forall i :: 0 <= i < |g| ==> g[i].deadline.None?
    ensures r.Some? ==> exists i :: 0 <= i < |g| && g[i].deadline == r
    ensures r.Some? ==> forall i :: 0 <= i < |g| && g[i].deadline.Some? ==> g[i].deadline.value <= r.value
    decreases |g|
  {
    if |g| == 0 then None
    else
      var init := g[..|g| - 1];
      var m := MaxDeadline(init);
      var d := g[|g| - 1].deadline;
      assert forall i :: 0 <= i < |g| - 1 ==> init[i] == g[i];
      if d.None? then m
      else if m.None? || d.value > m.value then d
      else m
  }

  /**
   * Line 140 without the rounding to one decimal: the share of completed
   * tasks, as a percentage. A group always has a task, so the source never
   * divides by zero.
   */
  function CompletionRate(realisees: nat, total: nat): (r: real)
    requires total > 0
    ensures r * (total as real) == 100.0 * (realisees as real)
    ensures realisees <= total ==> 0.0 <= r <= 100.0
    ensures r == 100.0 <==> realisees == total
    ensures r == 0.0 <==> realisees == 0
  {
    var t, d := total as real, realisees as real;
    var r := 100.0 * d / t;
    assert r * t == 100.0 * d;
    PercentFacts(d, t, r);
    r
  }

  /** Scaling by a positive factor preserves order, and so equality. */
  lemma ScaleMonotone(a: real, b: real, t: real)
    requires t > 0.0
    ensures a * t <= b * t ==> a <= b
    ensures a * t == b * t ==> a == b
  {
    if a > b {
      assert (a - b) * t > 0.0;
    }
  }

  /** What `r * t == 100 * d` with `t > 0` says about the percentage `r`. */
  lemma PercentFacts(d: real, t: real, r: real)
    requires t > 0.0 && 0.0 <= d && r * t == 100.0 * d
    ensures d <= t ==> 0.0 <= r <= 100.0
    ensures r == 100.0 <==> d == t
    ensures r == 0.0 <==> d == 0.0
  {
    ScaleMonotone(0.0, r, t);
    ScaleMonotone(r, 100.0, t);
    ScaleMonotone(r, 0.0, t);
  }

  /** Lines 142-148: `np.select`, the first matching condition wins. */
  function Rollup(total: nat, realisees: nat, enAttente: nat): (r: string)
    ensures IsCanonical(r)
    ensures r == Termine <==> total == realisees
    ensures r == EnAttente <==> total != realisees && total == enAttente
    ensures r == EnCours <==> total != realisees && total != enAttente
  {
    CanonicalDistinct();
    if total == realisees then Termine
    else if total == enAttente then EnAttente
    else EnCours
  }

  /** The activity row of the group of `rep`, a task of `rows`. */
  function Summarise(rep: Task, rows: seq<Task>): (a: Activity)
    requires rep in rows
    ensures KeyOf(a) == KeyOfActivity(rep)
    ensures a.total == |Group(rows, KeyOfActivity(rep))| >= 1
    ensures var g := Group(rows, KeyOfActivity(rep));
      a.realisees == CountStatus(g, Termine) && a.enCours == CountStatus(g, EnCours) && a.enAttente == CountStatus(g, EnAttente)
    ensures a.realisees + a.enCours + a.enAttente <= a.total
    ensures a.deadline == MaxDeadline(Group(rows, KeyOfActivity(rep)))
    ensures 0.0 <= a.rate <= 100.0 && a.rate == CompletionRate(a.realisees, a.total)
    ensures a.statut == Rollup(a.total, a.realisees, a.enAttente)
  {
    var k := KeyOfActivity(rep);
    var g := Group(rows, k);
    assert rep in g;
    StatusCountsBound(g);
    var realisees := CountStatus(g, Termine);
    var enAttente := CountStatus(g, EnAttente);
    Activity(k.responsable, k.domaine, k.activite, |g|, realisees, CountStatus(g, EnCours),
             enAttente, MaxDeadline(g), CompletionRate(realisees, |g|), Rollup(|g|, realisees, enAttente))
  }

  /**
   * The three task counts of an activity row are the multiplicities of
   * "Terminée", "En cours" and "En attente" among its group's statuses.
   */
  lemma SummariseCounts(rep: Task, rows: seq<Task>)
    requires rep in rows
    ensures var a := Summarise(rep, rows); var m := multiset(Map(StatusOf, Group(rows, KeyOfActivity(rep))));
      a.realisees == m[Termine] && a.enCours == m[EnCours] && a.enAttente == m[EnAttente]
  {
    var g := Group(rows, KeyOfActivity(rep));
    CountStatusMultiplicity(g, Termine);
    CountStatusMultiplicity(g, EnCours);
    CountStatusMultiplicity(g, EnAttente);
  }

  /** One activity row per representative, in the representatives' order. */
  function AggregateOver(reps: seq<Task>, rows: seq<Task>): (r: seq<Activity>)
    requires forall i :: 0 <= i < |reps| ==> reps[i] in rows
    ensures |r| == |reps|
    ensures forall i :: 0 <= i < |reps| ==> r[i] == Summarise(reps[i], rows)
  {
    seq(|reps|, i requires 0 <= i < |reps| => Summarise(reps[i], rows))
  }

  /**
   * Lines 130-148: the group-by. The first task of each activity stands for
   * its group, so there is exactly one row per distinct activity key among
   * `rows`, and every row is a well-formed summary.
   */
  function Aggregate(rows: seq<Task>): (r: seq<Activity>)
    ensures DistinctKeys(KeyOf, r)
    ensures KeysOf(KeyOf, r) == KeysOf(KeyOfActivity, rows)
    ensures |r| <= |rows|
    ensures forall i :: 0 <= i < |r| ==> r[i].total >= 1 && 0.0 <= r[i].rate <= 100.0
    ensures forall i :: 0 <= i < |r| ==> r[i].realisees + r[i].enCours + r[i].enAttente <= r[i].total
  {
    var reps := Dedup(KeyOfActivity, rows);
    SubsequenceMembers(reps, rows);
    var r := AggregateOver(reps, rows);
    KeysAgree(KeyOf, r, KeyOfActivity, reps);
    r
  }

  /** The sum of the task counts of activity rows. */
  function SumTotals(acts: seq<Activity>): nat
    decreases |acts|
  {
    if |acts| == 0 then 0 else SumTotals(acts[..|acts| - 1]) + acts[|acts| - 1].total
  }

  /** The sizes of the groups of the representatives `reps`, added up. */
  function GroupSizes(reps: seq<Task>, rows: seq<Task>): nat
    decreases |reps|
  {
    if |reps| == 0 then 0
    else GroupSizes(reps[..|reps| - 1], rows) + |Group(rows, KeyOfActivity(reps[|reps| - 1]))|
  }

  /** Rows whose task counts are the sizes of the representatives' groups add up to those sizes. */
  lemma {:induction false} SumTotalsIsGroupSizes(acts: seq<Activity>, reps: seq<Task>, rows: seq<Task>)
    requires |acts| == |reps|
    requires forall i :: 0 <= i < |acts| ==> acts[i].total == |Group(rows, KeyOfActivity(reps[i]))|
    ensures SumTotals(acts) == GroupSizes(reps, rows)
    decreases |reps|
  {
    if |reps| > 0 {
      var n := |reps| - 1;
      SumTotalsIsGroupSizes(acts[..n], reps[..n], rows);
    }
  }

  /** Adding one task to the input adds one to the group of its activity and nothing elsewhere. */
  lemma {:induction false} GroupSizesSnoc(reps: seq<Task>, rows: seq<Task>, x: Task)
    requires DistinctKeys(KeyOfActivity, reps)
    ensures GroupSizes(reps, rows + [x])
            == GroupSizes(reps, rows) + (if KeyOfActivity(x) in KeysOf(KeyOfActivity, reps) then 1 else 0)
    decreases |reps|
  {
    if |reps| > 0 {
      var n := |reps| - 1;
      var init := reps[..n];
      var y := reps[n];
      var k := KeyOfActivity(x);
      DistinctLast(KeyOfActivity, reps);
      GroupSizesSnoc(init, rows, x);
      GroupSizeSnoc(rows, x, KeyOfActivity(y));
      assert init + [y] == reps;
      KeysOfSnoc(KeyOfActivity, init, y);
      assert (k in KeysOf(KeyOfActivity, reps)) == (k in KeysOf(KeyOfActivity, init) || k == KeyOfActivity(y));
      assert GroupSizes(reps, rows + [x]) == GroupSizes(init, rows + [x]) + |Group(rows + [x], KeyOfActivity(y))|;
      assert GroupSizes(reps, rows) == GroupSizes(init, rows) + |Group(rows, KeyOfActivity(y))|;
    }
  }

  /** The size of a group grows by one exactly when the added task belongs to it. */
  lemma GroupSizeSnoc(rows: seq<Task>, x: Task, k: ActivityKey)
    ensures |Group(rows + [x], k)| == |Group(rows, k)| + (if KeyOfActivity(x) == k then 1 else 0)
  {
    GroupSnoc(rows, x, k);
  }

  /** A key that no task of `rows` carries has an empty group there. */
  lemma GroupOfAbsentKey(rows: seq<Task>, k: ActivityKey)
    requires k !in KeysOf(KeyOfActivity, rows)
    ensures Group(rows, k) == []
  {
  }

  /** Every task of `rows` belongs to the group of exactly one representative. */
  lemma {:induction false} GroupSizesDedup(rows: seq<Task>)
    ensures GroupSizes(Dedup(KeyOfActivity, rows), rows) == |rows|
    decreases |rows|
  {
    if |rows| > 0 {
      var init := rows[..|rows| - 1];
      var x := rows[|rows| - 1];
      var k := KeyOfActivity(x);
      var d := Dedup(KeyOfActivity, init);
      assert init + [x] == rows;
      GroupSizesDedup(init);
      GroupSizesSnoc(d, init, x);
      DedupSnoc(KeyOfActivity, init, x);
      if k !in KeysOf(KeyOfActivity, d) {
        GroupSizesAppend(d, x, rows);
        GroupOfAbsentKey(init, k);
        GroupSizeSnoc(init, x, k);
      }
    }
  }

  /** One more representative adds the size of its group. */
  lemma GroupSizesAppend(reps: seq<Task>, y: Task, rows: seq<Task>)
    ensures GroupSizes(reps + [y], rows) == GroupSizes(reps, rows) + |Group(rows, KeyOfActivity(y))|
  {
    assert (reps + [y])[..|reps|] == reps;
  }

  /** The task counts of all activity rows add up to the number of tasks aggregated. */
  lemma AggregateTotals(rows: seq<Task>)
    ensures SumTotals(Aggregate(rows)) == |rows|
  {
    var reps := Dedup(KeyOfActivity, rows);
    SubsequenceMembers(reps, rows);
    SumTotalsIsGroupSizes(AggregateOver(reps, rows), reps, rows);
    GroupSizesDedup(rows);
  }

  /** Every activity row summarises the group of a task of the input. */
  lemma AggregateSummarises(rows: seq<Task>)
    ensures |Aggregate(rows)| == |Dedup(KeyOfActivity, rows)|
    ensures forall i :: 0 <= i < |Aggregate(rows)| ==>
              Dedup(KeyOfActivity, rows)[i] in rows && Aggregate(rows)[i] == Summarise(Dedup(KeyOfActivity, rows)[i], rows)
  {
    SubsequenceMembers(Dedup(KeyOfActivity, rows), rows);
  }

  /**
   * The rolled-up status of an activity: "Terminée" exactly when all its tasks
   * are done, "En attente" exactly when all are pending, "En cours" otherwise;
   * and its rate is 100 exactly when it is "Terminée".
   */
  lemma RollupMeaning(rep: Task, rows: seq<Task>)
    requires rep in rows
    ensures var a := Summarise(rep, rows); var g := Group(rows, KeyOfActivity(rep));
      && (a.statut == Termine <==> forall i :: 0 <= i < |g| ==> g[i].statut == Termine)
      && (a.statut == EnAttente <==> forall i :: 0 <= i < |g| ==> g[i].statut == EnAttente)
      && (a.statut == EnCours <==>
            (!(forall i :: 0 <= i < |g| ==> g[i].statut == Termine) && !(forall i :: 0 <= i < |g| ==> g[i].statut == EnAttente)))
      && (a.rate == 100.0 <==> a.statut == Termine)
  {
    var g := Group(rows, KeyOfActivity(rep));
    assert rep in g;
    CountStatusAll(g, Termine);
    CountStatusAll(g, EnAttente);
  }
}
