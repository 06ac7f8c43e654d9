/**
 * The enemy modal's submit: a whitelist of type names, and the
 * anticlockwise flag kept only for rotating enemies.
 */
module AddEnemyForm {
  import opened EditorTypes
  import opened LevelEdits
  import opened Constants
  import opened BlockCell

  /** The names the modal accepts: the four declared types and "Laser". */
  const MODAL_TYPES: seq<string> := ["Static", "Rotating", "Moving", "StrongMoving", "Laser"]

  const INVALID_TYPE_ALERT := "Invalid enemy type"

  /** What a submit does: onSubmit with the data, then onClose; or the
      alert, with the modal left open. */
  datatype Submit = Submitted(data: EnemyData) | Rejected(alert: string)

  /** handleSubmit on the form's current values. */
  function SubmitEnemy(form: EnemyData): Submit {
    if form.enemyType !in MODAL_TYPES then Rejected(INVALID_TYPE_ALERT)
    else Submitted(form.(rotateAntiClockwise := if form.enemyType == "Rotating" then form.rotateAntiClockwise else false))
  }

  /** A submit goes through exactly when the type is one of the five names;
      type, spawnable and direction pass unchanged, and the anticlockwise
      flag survives only for "Rotating". */
  lemma SubmitEnemyMeaning(form: EnemyData)
    ensures SubmitEnemy(form).Submitted? <==>
      form.enemyType in {"Static", "Rotating", "Moving", "StrongMoving", "Laser"}
    ensures SubmitEnemy(form).Rejected? ==> SubmitEnemy(form).alert == INVALID_TYPE_ALERT
    ensures SubmitEnemy(form).Submitted? ==>
      var e := SubmitEnemy(form).data;
      && e.enemyType == form.enemyType && e.spawnable == form.spawnable && e.direction == form.direction
      && (e.rotateAntiClockwise <==> form.enemyType == "Rotating" && form.rotateAntiClockwise)
  {
  }

  /** Every declared enemy type passes the modal. */
  lemma DeclaredTypesAccepted(form: EnemyData)
    requires IsDeclaredEnemyType(form.enemyType)
    ensures SubmitEnemy(form).Submitted?
  {
  }

  /** "Laser" passes the modal but is not a declared Enemy type: it is
      stored by the page's upsert as it is, and the cell it lands on keeps
      whatever category it showed before. */
  lemma LaserReachesLevel(level: Level, index: int, form: EnemyData, previous: BlockType)
    requires form.enemyType == "Laser"
    requires !IsStartCell(level, index) && level.EndNode != index
    ensures SubmitEnemy(form).Submitted?
    ensures !IsDeclaredEnemyType(SubmitEnemy(form).data.enemyType)
    ensures var r := AddEnemy(level, index, SubmitEnemy(form).data);
      && EnemyAt(r.Enemies, index) >= 0 && r.Enemies[EnemyAt(r.Enemies, index)].Type == "Laser"
      && Classify(r, index, previous) == Done(previous)
  {
    var e := SubmitEnemy(form).data;
    AddEnemyUpserts(level, index, e);
    var r := AddEnemy(level, index, e);
    UndeclaredEnemyKeepsCategory(r, index, previous);
  }
}
