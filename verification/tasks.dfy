/**
 * The task rows of the activity-tracking dataset, before and after
 * normalisation, and the status vocabulary of the dashboard.
 */
module Tasks {
  import opened Options

  /**
   * A point in time (a deadline, or "now"). Only its order matters; parsing
   * and time zones are outside the model.
   */
  type Date = int

  /**
   * A raw row as loaded. Text cells are given in the form `astype(str)`
   * produces, so a missing text cell reads "nan". The deadline is already
   * parsed (`None` when it could not be). The completion rate is already a
   * number, `None` when the cell is blank or one of the empty tokens.
   */
  datatype RawTask = RawTask(
    responsable: string,
    domaine: string,
    activite: string,
    tache: string,
    deadline: Option<Date>,
    rate: Option<real>,
    statut: string)

  /** A row after normalisation: the completion rate is always present. */
  datatype Task = Task(
    responsable: string,
    domaine: string,
    activite: string,
    tache: string,
    deadline: Option<Date>,
    rate: real,
    statut: string)

  /** The three canonical statuses. */
  const Termine: string := "Terminée"
  const EnCours: string := "En cours"
  const EnAttente: string := "En attente"

  predicate IsCanonical(s: string)
  {
    s == Termine || s == EnCours || s == EnAttente
  }

  /** The three canonical statuses are different strings. */
  lemma CanonicalDistinct()
    ensures Termine != EnCours && Termine != EnAttente && EnCours != EnAttente
  {
    assert Termine[0] == 'T' && EnCours[0] == 'E';
    assert |EnCours| == 8 && |EnAttente| == 10;
  }

  /** Legacy spellings folded onto "En cours". */
  const Synonyms: seq<string> := ["En cours d'execution", "encours"]

  /** The identity of a task: `(Responsable, Domaine, Activité, Tache)`. */
  datatype TaskKey = TaskKey(responsable: string, domaine: string, activite: string, tache: string)

  function KeyOfTask(t: Task): TaskKey
  {
    TaskKey(t.responsable, t.domaine, t.activite, t.tache)
  }

  /** The identity of an activity: `(Responsable, Domaine, Activité)`. */
  datatype ActivityKey = ActivityKey(responsable: string, domaine: string, activite: string)

  function KeyOfActivity(t: Task): ActivityKey
  {
    ActivityKey(t.responsable, t.domaine, t.activite)
  }
}
