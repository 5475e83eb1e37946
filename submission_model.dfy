/** The Submission record: a reference to its form, an untyped answer
    value, the recorded photo paths, internal notes and the submission
    time, with the defaults its schema declares. */
module SubmissionModel {
  import opened Common
  import Json

  /** Store-generated identifiers (ObjectIds). */
  type Id = nat

  datatype Submission = Submission(
    form: Id,
    answers: Json.Value,
    photos: seq<string>,
    notes: string,
    submittedAt: nat)

  /** `new Submission({...})`: every attribute but the form reference may
      be left out and then takes the schema's default (`{}`, `[]`, `''`, the
      creation time). */
  function NewSubmission(form: Id, answers: Option<Json.Value>, photos: Option<seq<string>>,
                         notes: Option<string>, submittedAt: Option<nat>, now: nat): (r: Submission)
    ensures r.form == form
    ensures r.answers == (if answers.Some? then answers.value else Json.EmptyObject)
    ensures r.photos == (if photos.Some? then photos.value else [])
    ensures r.notes == (if notes.Some? then notes.value else "")
    ensures r.submittedAt == (if submittedAt.Some? then submittedAt.value else now)
  {
    Submission(form, answers.GetOr(Json.EmptyObject), photos.GetOr([]), notes.GetOr(""), submittedAt.GetOr(now))
  }
}
