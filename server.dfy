/** The document store as mutable state, with one method per handler that
    changes it. Each method does the handler's work step by step (the
    unlink loops included) and ends in the state, and with the reply, that
    the handler's step function gives. */
module Server {
  import opened Common
  import opened FormModel
  import opened SubmissionModel
  import opened Store
  import opened Uploads
  import Json
  import FormController
  import SubmissionController

  class DocumentStore {
    var forms: map<Id, Form>
    var formOrder: seq<Id>
    var submissions: map<Id, Submission>
    var submissionOrder: seq<Id>
    var blobs: set<string>
    var nextId: Id

    /** The whole store as a value. */
    function Snapshot(): Db
      reads this
    {
      Db(forms, formOrder, submissions, submissionOrder, blobs, nextId)
    }

    predicate Valid()
      reads this
    {
      Store.Valid(Snapshot())
    }

    /** An empty database and an empty upload directory. */
    constructor ()
      ensures Snapshot() == EmptyDb && Valid()
    {
      forms, formOrder := map[], [];
      submissions, submissionOrder := map[], [];
      blobs, nextId := {}, 0;
    }

    /** `fs.unlinkSync` inside `try { } catch { }`: removes the file unless
        the unlink fails, and a failure is swallowed. */
    method Unlink(path: string, fails: bool)
      modifies this
      ensures Snapshot() == old(Snapshot()).(blobs := if fails then old(blobs) else old(blobs) - {path})
    {
      if !fails {
        blobs := blobs - {path};
      }
    }

    /** The multer middleware: writes each upload into `dir` under its
        generated name, in upload order. */
    method ReceiveUploads(dir: string, files: seq<Incoming>) returns (storedNames: seq<string>)
      modifies this
      ensures old(Valid()) ==> Valid()
      ensures SubmissionController.Uploaded(Snapshot(), storedNames)
        == SubmissionController.ReceiveUploads(old(Snapshot()), dir, files)
    {
      storedNames := [];
      var i := 0;
      while i < |files|
        invariant 0 <= i <= |files|
        invariant storedNames == StoredNames(files[..i])
        invariant Snapshot() == old(Snapshot()).(blobs := blobs)
        invariant forall b :: b in blobs <==>
          b in old(blobs) || exists k :: 0 <= k < i && b == WrittenPath(dir, storedNames[k])
      {
        var name := StoredName(files[i].stamp, files[i].originalName);
        blobs := blobs + {WrittenPath(dir, name)};
        storedNames := storedNames + [name];
        i := i + 1;
      }
      assert files[..i] == files;
    }

    method CreateForm(name: Option<string>, fields: Option<seq<FieldInput>>, now: nat) returns (reply: Reply<Stored<Form>>)
      modifies this
      ensures old(Valid()) ==> Valid()
      ensures Step(Snapshot(), reply) == FormController.CreateForm(old(Snapshot()), name, fields, now)
    {
      ghost var step := FormController.CreateForm(Snapshot(), name, fields, now);
      var f := NewForm(name, fields, now);
      if f.None? {
        reply := Error(400, "Invalid form data");
      } else {
        var id := nextId;
        forms := forms[id := f.value];
        formOrder := formOrder + [id];
        nextId := nextId + 1;
        reply := Ok(201, Stored(id, f.value));
      }
      assert Snapshot() == step.db;
    }

    method UpdateForm(p: IdParam, name: string, fields: seq<FieldInput>) returns (reply: Reply<Stored<Form>>)
      modifies this
      ensures old(Valid()) ==> Valid()
      ensures Step(Snapshot(), reply) == FormController.UpdateForm(old(Snapshot()), p, name, fields)
    {
      if p.Malformed? {
        reply := Error(400, "Invalid data");
      } else if p.id !in forms {
        reply := Error(404, "Form not found");
      } else {
        var updated := forms[p.id].(name := name, fields := CastFields(fields));
        forms := forms[p.id := updated];
        reply := Ok(200, Stored(p.id, updated));
      }
    }

    /** The inner loop: unlinks each path in turn, ignoring failures. */
    method UnlinkEach(photos: seq<string>, unlinkFails: set<string>)
      modifies this
      ensures Snapshot() == old(Snapshot()).(blobs := FormController.UnlinkAll(old(blobs), (set q | q in photos), unlinkFails))
    {
      var j := 0;
      while j < |photos|
        invariant 0 <= j <= |photos|
        invariant Snapshot() == old(Snapshot()).(blobs := FormController.UnlinkAll(old(blobs), (set q | q in photos[..j]), unlinkFails))
      {
        Unlink(photos[j], photos[j] in unlinkFails);
        assert photos[..j + 1] == photos[..j] + [photos[j]];
        j := j + 1;
      }
      assert photos[..j] == photos;
    }

    /** The outer loop: the photos of each submission in `subs`, in turn. */
    method UnlinkPhotosOf(subs: seq<Id>, unlinkFails: set<string>)
      requires forall s :: s in subs ==> s in submissions
      modifies this
      ensures Snapshot() == old(Snapshot()).(blobs := FormController.UnlinkAll(old(blobs), PhotosOf(old(submissions), subs), unlinkFails))
    {
      var i := 0;
      while i < |subs|
        invariant 0 <= i <= |subs|
        invariant Snapshot() == old(Snapshot()).(blobs := FormController.UnlinkAll(old(blobs), PhotosOf(old(submissions), subs[..i]), unlinkFails))
      {
        UnlinkEach(submissions[subs[i]].photos, unlinkFails);
        FormController.UnlinkAllTwice(old(blobs), PhotosOf(old(submissions), subs[..i]), (set q | q in submissions[subs[i]].photos), unlinkFails);
        assert subs[..i + 1] == subs[..i] + [subs[i]];
        PhotosOfSnoc(submissions, subs[..i], subs[i]);
        i := i + 1;
      }
      assert subs[..i] == subs;
    }

    /** Deletes the form, walks the form's submissions and their photos
        unlinking each one, then bulk-deletes the submissions. */
    method DeleteForm(p: IdParam, unlinkFails: set<string>) returns (reply: Reply<string>)
      modifies this
      ensures old(Valid()) ==> Valid()
      ensures Step(Snapshot(), reply) == FormController.DeleteForm(old(Snapshot()), p, unlinkFails)
    {
      ghost var step := FormController.DeleteForm(Snapshot(), p, unlinkFails);
      if p.Malformed? {
        reply := Error(500, "Server error deleting form");
        return;
      }
      var id := p.id;
      forms := forms - {id};
      formOrder := Without(formOrder, {id});
      var subs := OfForm(submissionOrder, submissions, id);
      UnlinkPhotosOf(subs, unlinkFails);
      var gone := set s | s in submissions && submissions[s].form == id;
      submissions := submissions - gone;
      submissionOrder := Without(submissionOrder, gone);
      reply := Ok(200, "Form and related submissions deleted");
      assert Snapshot() == step.db;
    }

    method CreateSubmission(p: IdParam, data: SubmissionController.Payload, storedNames: seq<string>, now: nat)
      returns (reply: Reply<Stored<Submission>>)
      modifies this
      ensures old(Valid()) ==> Valid()
      ensures Step(Snapshot(), reply) == SubmissionController.CreateSubmission(old(Snapshot()), p, data, storedNames, now)
    {
      ghost var step := SubmissionController.CreateSubmission(Snapshot(), p, data, storedNames, now);
      if data.Unparseable? || p.Malformed? {
        reply := Error(400, "Invalid submission data");
        return;
      }
      var body := SubmissionController.Body(data);
      if p.id !in forms {
        reply := Error(404, "Form not found");
      } else if body.Null? || SubmissionController.NotesOf(body).None? {
        reply := Error(400, "Invalid submission data");
      } else {
        var s := NewSubmission(p.id, Some(SubmissionController.AnswersOf(body)),
          Some(SubmissionController.PhotoPaths(storedNames)), SubmissionController.NotesOf(body), Some(now), now);
        var id := nextId;
        submissions := submissions[id := s];
        submissionOrder := submissionOrder + [id];
        nextId := nextId + 1;
        reply := Ok(201, Stored(id, s));
      }
      assert Snapshot() == step.db;
    }

    method UpdateNotes(p: IdParam, notes: Option<Json.Value>) returns (reply: Reply<Stored<Submission>>)
      modifies this
      ensures old(Valid()) ==> Valid()
      ensures Step(Snapshot(), reply) == SubmissionController.UpdateNotes(old(Snapshot()), p, notes)
    {
      var cast := Json.CastToString(Json.OrElse(notes, Json.Str("")));
      if p.Malformed? || cast.None? {
        reply := Error(400, "Failed to update notes");
      } else if p.id !in submissions {
        reply := Error(404, "Submission not found");
      } else {
        var s := submissions[p.id].(notes := cast.value);
        submissions := submissions[p.id := s];
        reply := Ok(200, Stored(p.id, s));
      }
    }

    /** Unlinks each photo of the submission in turn, then removes the
        record. */
    method DeleteSubmission(p: IdParam, unlinkFails: set<string>) returns (reply: Reply<string>)
      modifies this
      ensures old(Valid()) ==> Valid()
      ensures Step(Snapshot(), reply) == SubmissionController.DeleteSubmission(old(Snapshot()), p, unlinkFails)
    {
      if p.Malformed? {
        reply := Error(500, "Failed to delete submission");
        return;
      }
      if p.id !in submissions {
        reply := Error(404, "Submission not found");
        return;
      }
      UnlinkEach(submissions[p.id].photos, unlinkFails);
      submissions := submissions - {p.id};
      submissionOrder := Without(submissionOrder, {p.id});
      reply := Ok(200, "Submission deleted");
    }
  }
}
