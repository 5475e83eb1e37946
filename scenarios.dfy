/** A worked example through the handlers, proved on an empty store: a form with one
    required text field, then a submission to it with no files. */
module Scenarios {
  import opened Common
  import opened FormModel
  import opened SubmissionModel
  import opened Store
  import Json
  import FormController
  import SubmissionController

  const VinAnswers: Json.Value := Json.Object(map["VIN" := Json.Str("1HGCM82633A004352")])

  /** Creating the "Intake" form and submitting one VIN answer without
      photos gives a listing of exactly one submission, whose answers hold
      that VIN and whose photo list is empty. */
  lemma IntakeScenario(createdAt: nat, submittedAt: nat)
    ensures var c := FormController.CreateForm(EmptyDb, Some("Intake"), Some([FieldInput(Some("VIN"), Some("text"), Some(true))]), createdAt);
      c.reply.Ok? && Valid(c.db)
      && var s := SubmissionController.CreateSubmission(c.db, ObjectId(c.reply.value.id),
           SubmissionController.Parsed(Json.Object(map["answers" := VinAnswers])), [], submittedAt);
      s.reply.Ok? && Valid(s.db)
      && var l := SubmissionController.ListSubmissions(s.db, None);
      l.Ok? && |l.value| == 1 && l.value[0].doc.answers == VinAnswers && l.value[0].doc.photos == []
      && l.value[0].doc.form == c.reply.value.id
  {
    var fields := [FieldInput(Some("VIN"), Some("text"), Some(true))];
    assert ValidFieldInput(fields[0]);
    var c := FormController.CreateForm(EmptyDb, Some("Intake"), Some(fields), createdAt);
    var data := SubmissionController.Parsed(Json.Object(map["answers" := VinAnswers]));
    var s := SubmissionController.CreateSubmission(c.db, ObjectId(c.reply.value.id), data, [], submittedAt);
    assert s.db.submissionOrder == [1];
    var l := SubmissionController.ListSubmissions(s.db, None);
    SubmissionController.ListSubmissionsMatches(s.db, None);
  }
}
