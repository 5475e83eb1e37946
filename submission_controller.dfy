/** The submission handlers as steps on the store: the upload middleware
    that runs first, creation, the sorted listing, the notes update and the
    delete with its best-effort photo cleanup. */
module SubmissionController {
  import opened Common
  import Json
  import opened FormModel
  import opened SubmissionModel
  import opened Store
  import opened Uploads

  /** The multipart `data` field after `JSON.parse`: absent or empty (so
      parsing is skipped), text that does not parse, or the parsed value. */
  datatype Payload = Missing | Unparseable | Parsed(value: Json.Value)

  /** The store after multer wrote the uploads, and the names it gave them. */
  datatype Uploaded = Uploaded(db: Db, storedNames: seq<string>)

  /** `upload.array('photos')`: before the handler runs, every file is
      written into the upload directory under its generated name. */
  function ReceiveUploads(db: Db, dir: string, files: seq<Incoming>): (r: Uploaded)
    ensures r.storedNames == StoredNames(files)
    ensures forall b :: b in r.db.blobs <==>
      b in db.blobs || exists i :: 0 <= i < |files| && b == WrittenPath(dir, r.storedNames[i])
    ensures r.db == db.(blobs := r.db.blobs)
  {
    var names := StoredNames(files);
    var written := set i | 0 <= i < |files| :: WrittenPath(dir, names[i]);
    Uploaded(db.(blobs := db.blobs + written), names)
  }

  /** `path.join('uploads', f.filename)` for each upload, in upload order. */
  function PhotoPaths(storedNames: seq<string>): (r: seq<string>)
    ensures |r| == |storedNames|
    ensures forall i :: 0 <= i < |r| ==> r[i] == RecordedPath(storedNames[i])
  {
    seq(|storedNames|, i requires 0 <= i < |storedNames| => RecordedPath(storedNames[i]))
  }

  /** The parsed body, `{}` when no data was sent. */
  function Body(data: Payload): Json.Value
    requires !data.Unparseable?
  {
    if data.Missing? then Json.EmptyObject else data.value
  }

  /** `parsed.answers || {}`. */
  function AnswersOf(body: Json.Value): Json.Value
    requires !body.Null?
  {
    Json.OrElse(Json.Property(body, "answers"), Json.EmptyObject)
  }

  /** `parsed._notes || ''`, cast to a string; `None` when the cast fails. */
  function NotesOf(body: Json.Value): Option<string>
    requires !body.Null?
  {
    Json.CastToString(Json.OrElse(Json.Property(body, "_notes"), Json.Str("")))
  }

  /** POST /api/forms/:id/submissions. Parsing comes first, then the form
      lookup, then the record; every failure stores nothing. */
  function CreateSubmission(db: Db, p: IdParam, data: Payload, storedNames: seq<string>, now: nat): (r: Step<Stored<Submission>>)
    ensures data.Unparseable? ==> r == Step(db, Error(400, "Invalid submission data"))
    ensures !data.Unparseable? && p.Malformed? ==> r == Step(db, Error(400, "Invalid submission data"))
    ensures !data.Unparseable? && p.ObjectId? && p.id !in db.forms ==> r == Step(db, Error(404, "Form not found"))
    ensures r.reply.Error? ==> r.db == db
    ensures !data.Unparseable? && p.ObjectId? && p.id in db.forms && !r.reply.Ok? ==>
      r == Step(db, Error(400, "Invalid submission data"))
    ensures r.reply.Ok? <==> (!data.Unparseable? && p.ObjectId? && p.id in db.forms
      && !Body(data).Null? && NotesOf(Body(data)).Some?)
    ensures r.reply.Ok? ==>
      var s := r.reply.value.doc;
      r.reply.status == 201 && r.reply.value.id == db.nextId && (Valid(db) ==> r.reply.value.id !in db.submissions)
      && s.form == p.id && s.answers == AnswersOf(Body(data)) && s.notes == NotesOf(Body(data)).value
      && s.photos == PhotoPaths(storedNames) && s.submittedAt == now
      && r.db == db.(submissions := db.submissions[db.nextId := s],
                     submissionOrder := db.submissionOrder + [db.nextId], nextId := db.nextId + 1)
    ensures r.db.blobs == db.blobs && r.db.forms == db.forms
    ensures Valid(db) ==> Valid(r.db)
  {
    if data.Unparseable? then Step(db, Error(400, "Invalid submission data"))
    else
      var body := Body(data);
      match p
      case Malformed => Step(db, Error(400, "Invalid submission data"))
      case ObjectId(formId) =>
        if formId !in db.forms then Step(db, Error(404, "Form not found"))
        else if body.Null? then Step(db, Error(400, "Invalid submission data"))
        else
          match NotesOf(body)
          case None => Step(db, Error(400, "Invalid submission data"))
          case Some(notes) =>
            var s := NewSubmission(formId, Some(AnswersOf(body)), Some(PhotoPaths(storedNames)), Some(notes), Some(now), now);
            var id := db.nextId;
            var db' := db.(submissions := db.submissions[id := s],
                           submissionOrder := db.submissionOrder + [id], nextId := id + 1);
            assert Valid(db) ==> Valid(db') by {
              if Valid(db) { AppendFresh(db.submissionOrder, id); }
            }
            Step(db', Ok(201, Stored(id, s)))
  }

  /** The uploads are written before the handler runs, so a request that
      fails with 400 or 404 stores no record but leaves every uploaded file
      in the blob store. */
  lemma FailedSubmissionKeepsUploads(db: Db, dir: string, files: seq<Incoming>, p: IdParam, data: Payload, now: nat)
    requires var u := ReceiveUploads(db, dir, files);
      CreateSubmission(u.db, p, data, u.storedNames, now).reply.Error?
    ensures var u := ReceiveUploads(db, dir, files);
      var c := CreateSubmission(u.db, p, data, u.storedNames, now);
      c.db.submissions == db.submissions && c.db.submissionOrder == db.submissionOrder
      && forall i :: 0 <= i < |files| ==> WrittenPath(dir, u.storedNames[i]) in c.db.blobs
  {
    var u := ReceiveUploads(db, dir, files);
    forall i | 0 <= i < |files| ensures WrittenPath(dir, u.storedNames[i]) in u.db.blobs {
      var b := WrittenPath(dir, u.storedNames[i]);
      assert exists k :: 0 <= k < |files| && b == WrittenPath(dir, u.storedNames[k]);
    }
  }

  /** Without a `data` field the record has empty answers and empty notes. */
  lemma MissingDataDefaults(db: Db, formId: Id, storedNames: seq<string>, now: nat)
    requires formId in db.forms
    ensures var r := CreateSubmission(db, ObjectId(formId), Missing, storedNames, now);
      r.reply.Ok? && r.reply.value.doc.answers == Json.Object(map[]) && r.reply.value.doc.notes == ""
  {
  }

  /** Malformed data is reported as 400 even when the form does not exist,
      because parsing runs before the lookup. */
  lemma ParseBeforeLookup(db: Db, formId: Id, storedNames: seq<string>, now: nat)
    requires formId !in db.forms
    ensures CreateSubmission(db, ObjectId(formId), Unparseable, storedNames, now).reply == Error(400, "Invalid submission data")
    ensures CreateSubmission(db, ObjectId(formId), Parsed(Json.Null), storedNames, now).reply == Error(404, "Form not found")
  {
  }

  /** Newest first by `submittedAt`. */
  predicate NewestFirst(xs: seq<Stored<Submission>>) {
    forall i, j :: 0 <= i < j < |xs| ==> xs[i].doc.submittedAt >= xs[j].doc.submittedAt
  }

  predicate IdsNewestFirst(submissions: map<Id, Submission>, ids: seq<Id>)
    requires forall id :: id in ids ==> id in submissions
  {
    forall i, j :: 0 <= i < j < |ids| ==> submissions[ids[i]].submittedAt >= submissions[ids[j]].submittedAt
  }

  /** In a newest-first list the head is the newest, and the tail is
      newest-first too. */
  lemma HeadNewest(submissions: map<Id, Submission>, ids: seq<Id>)
    requires ids != [] && forall id :: id in ids ==> id in submissions
    requires IdsNewestFirst(submissions, ids)
    ensures forall id :: id in ids ==> submissions[id].submittedAt <= submissions[ids[0]].submittedAt
    ensures IdsNewestFirst(submissions, ids[1..])
  {
    forall id | id in ids ensures submissions[id].submittedAt <= submissions[ids[0]].submittedAt {
      var k :| 0 <= k < |ids| && ids[k] == id;
      if k > 0 {
        assert submissions[ids[0]].submittedAt >= submissions[ids[k]].submittedAt;
      }
    }
    var t := ids[1..];
    forall i, j | 0 <= i < j < |t| ensures submissions[t[i]].submittedAt >= submissions[t[j]].submittedAt {
      assert t[i] == ids[i + 1] && t[j] == ids[j + 1];
    }
  }

  /** Putting an id no older than any of a newest-first list in front keeps
      the list newest-first. */
  lemma ConsNewest(submissions: map<Id, Submission>, h: Id, rest: seq<Id>)
    requires h in submissions && forall id :: id in rest ==> id in submissions
    requires IdsNewestFirst(submissions, rest)
    requires forall id :: id in rest ==> submissions[id].submittedAt <= submissions[h].submittedAt
    ensures IdsNewestFirst(submissions, [h] + rest)
  {
    var s := [h] + rest;
    forall i, j | 0 <= i < j < |s| ensures submissions[s[i]].submittedAt >= submissions[s[j]].submittedAt {
      assert s[j] == rest[j - 1];
      if i > 0 {
        assert s[i] == rest[i - 1];
      } else {
        assert rest[j - 1] in rest;
      }
    }
  }

  lemma ConsDistinct(h: Id, rest: seq<Id>)
    requires Distinct(rest) && h !in rest
    ensures Distinct([h] + rest)
  {
    var s := [h] + rest;
    forall i, j | 0 <= i < j < |s| ensures s[i] != s[j] {
      assert s[j] == rest[j - 1];
      if i > 0 {
        assert s[i] == rest[i - 1];
      }
    }
  }

  function InsertByTime(submissions: map<Id, Submission>, x: Id, ids: seq<Id>): (r: seq<Id>)
    requires x in submissions && forall id :: id in ids ==> id in submissions
    requires IdsNewestFirst(submissions, ids)
    ensures |r| == |ids| + 1
    ensures forall id :: id in r <==> id == x || id in ids
    ensures IdsNewestFirst(submissions, r)
    ensures Distinct(ids) && x !in ids ==> Distinct(r)
  {
    if ids == [] then [x]
    else
      HeadNewest(submissions, ids);
      if submissions[x].submittedAt >= submissions[ids[0]].submittedAt then
        ConsNewest(submissions, x, ids);
        assert Distinct(ids) && x !in ids ==> Distinct([x] + ids) by {
          if Distinct(ids) && x !in ids { ConsDistinct(x, ids); }
        }
        [x] + ids
      else
        var tail := ids[1..];
        assert forall id :: id in tail ==> id in ids;
        var rest := InsertByTime(submissions, x, tail);
        ConsNewest(submissions, ids[0], rest);
        assert Distinct(ids) && x !in ids ==> Distinct([ids[0]] + rest) by {
          if Distinct(ids) && x !in ids {
            assert Distinct(tail) && ids[0] !in tail;
            ConsDistinct(ids[0], rest);
          }
        }
        assert forall id :: id in ids <==> id == ids[0] || id in tail;
        [ids[0]] + rest
  }

  /** `.sort({ submittedAt: -1 })` on the selected ids: a permutation of
      them, newest first. */
  function SortByTime(submissions: map<Id, Submission>, ids: seq<Id>): (r: seq<Id>)
    requires forall id :: id in ids ==> id in submissions
    ensures |r| == |ids|
    ensures forall id :: id in r <==> id in ids
    ensures IdsNewestFirst(submissions, r)
    ensures Distinct(ids) ==> Distinct(r)
  {
    if ids == [] then []
    else InsertByTime(submissions, ids[0], SortByTime(submissions, ids[1..]))
  }

  /** Inserting adds exactly the inserted id to the ids. */
  lemma {:induction false} InsertByTimeAdds(submissions: map<Id, Submission>, x: Id, ids: seq<Id>)
    requires x in submissions && forall id :: id in ids ==> id in submissions
    requires IdsNewestFirst(submissions, ids)
    ensures multiset(InsertByTime(submissions, x, ids)) == multiset(ids) + multiset{x}
  {
    if ids != [] && submissions[x].submittedAt < submissions[ids[0]].submittedAt {
      HeadNewest(submissions, ids);
      var tail := ids[1..];
      InsertByTimeAdds(submissions, x, tail);
      assert ids == [ids[0]] + tail;
      assert InsertByTime(submissions, x, ids) == [ids[0]] + InsertByTime(submissions, x, tail);
    }
  }

  /** The sort is a permutation of the selected ids. */
  lemma {:induction false} SortByTimePermutes(submissions: map<Id, Submission>, ids: seq<Id>)
    requires forall id :: id in ids ==> id in submissions
    ensures multiset(SortByTime(submissions, ids)) == multiset(ids)
  {
    if ids != [] {
      var tail := ids[1..];
      assert forall id :: id in tail ==> id in submissions;
      var rest := SortByTime(submissions, tail);
      SortByTimePermutes(submissions, tail);
      InsertByTimeAdds(submissions, ids[0], rest);
      assert SortByTime(submissions, ids) == InsertByTime(submissions, ids[0], rest);
      assert ids == [ids[0]] + tail;
      assert multiset(ids) == multiset(tail) + multiset{ids[0]};
    }
  }

  function Records(submissions: map<Id, Submission>, ids: seq<Id>): (r: seq<Stored<Submission>>)
    requires forall id :: id in ids ==> id in submissions
    ensures |r| == |ids|
    ensures forall i :: 0 <= i < |ids| ==> r[i] == Stored(ids[i], submissions[ids[i]])
    ensures IdsNewestFirst(submissions, ids) ==> NewestFirst(r)
  {
    seq(|ids|, i requires 0 <= i < |ids| => Stored(ids[i], submissions[ids[i]]))
  }

  /** The ids a query selects, in store order: all submissions, or those of
      one form. */
  function Selected(db: Db, formId: Option<Id>): (r: seq<Id>)
    requires Valid(db)
    ensures Distinct(r)
    ensures forall id :: id in r <==> id in db.submissions && (formId.Some? ==> db.submissions[id].form == formId.value)
  {
    if formId.None? then db.submissionOrder else OfForm(db.submissionOrder, db.submissions, formId.value)
  }

  /** GET /api/submissions?form=:id: the submissions, of one form when a
      filter is given, newest first. A filter that is not an ObjectId fails
      to cast and gives 500. */
  function ListSubmissions(db: Db, filter: Option<IdParam>): (r: Reply<seq<Stored<Submission>>>)
    requires Valid(db)
    ensures filter == Some(Malformed) ==> r == Error(500, "Failed to fetch submissions")
    ensures filter != Some(Malformed) ==> r.Ok? && r.status == 200 && NewestFirst(r.value)
  {
    match filter
    case Some(Malformed) => Error(500, "Failed to fetch submissions")
    case Some(ObjectId(formId)) => Ok(200, Records(db.submissions, SortByTime(db.submissions, Selected(db, Some(formId)))))
    case None => Ok(200, Records(db.submissions, SortByTime(db.submissions, Selected(db, None))))
  }

  /** The listing holds each selected submission exactly once, as stored,
      and nothing else. */
  lemma ListSubmissionsMatches(db: Db, filter: Option<IdParam>)
    requires Valid(db) && filter != Some(Malformed)
    ensures var r := ListSubmissions(db, filter).value;
      (forall x :: x in r <==> (x.id in db.submissions && x.doc == db.submissions[x.id]
        && (filter.Some? ==> x.doc.form == filter.value.id)))
      && (forall i, j :: 0 <= i < j < |r| ==> r[i].id != r[j].id)
  {
    var formId := if filter.Some? then Some(filter.value.id) else None;
    var ids := SortByTime(db.submissions, Selected(db, formId));
    var r := Records(db.submissions, ids);
    assert ListSubmissions(db, filter).value == r;
    forall x: Stored<Submission> | x in r
      ensures x.id in db.submissions && x.doc == db.submissions[x.id] && (filter.Some? ==> x.doc.form == filter.value.id)
    {
      var k :| 0 <= k < |r| && r[k] == x;
      assert ids[k] in ids;
    }
    forall x: Stored<Submission> | x.id in db.submissions && x.doc == db.submissions[x.id] && (filter.Some? ==> x.doc.form == filter.value.id)
      ensures x in r
    {
      assert x.id in ids;
      var k :| 0 <= k < |ids| && ids[k] == x.id;
      assert r[k] == x;
    }
  }

  /** PUT /api/submissions/:id/notes: sets `notes` to the given value or
      `''` and changes nothing else. */
  function UpdateNotes(db: Db, p: IdParam, notes: Option<Json.Value>): (r: Step<Stored<Submission>>)
    ensures p.Malformed? || Json.CastToString(Json.OrElse(notes, Json.Str(""))).None? ==>
      r == Step(db, Error(400, "Failed to update notes"))
    ensures p.ObjectId? && p.id !in db.submissions && Json.CastToString(Json.OrElse(notes, Json.Str(""))).Some? ==>
      r == Step(db, Error(404, "Submission not found"))
    ensures p.ObjectId? && p.id in db.submissions && Json.CastToString(Json.OrElse(notes, Json.Str(""))).Some? ==>
      r.reply.Ok?
    ensures r.reply.Ok? ==> (p.ObjectId? && p.id in db.submissions && r.reply.status == 200
      && r.reply.value.id == p.id
      && r.reply.value.doc == db.submissions[p.id].(notes := Json.CastToString(Json.OrElse(notes, Json.Str(""))).value)
      && r.db == db.(submissions := db.submissions[p.id := r.reply.value.doc]))
    ensures r.reply.Error? ==> r.db == db
    ensures Valid(db) ==> Valid(r.db)
  {
    var cast := Json.CastToString(Json.OrElse(notes, Json.Str("")));
    if p.Malformed? || cast.None? then Step(db, Error(400, "Failed to update notes"))
    else if p.id !in db.submissions then Step(db, Error(404, "Submission not found"))
    else
      var s := db.submissions[p.id].(notes := cast.value);
      Step(db.(submissions := db.submissions[p.id := s]), Ok(200, Stored(p.id, s)))
  }

  /** A notes update changes `notes` only: the form reference, answers,
      photos and time of that submission, every other record and every
      blob stay as they were; no notes in the request clears them. */
  lemma UpdateNotesOnlyNotes(db: Db, id: Id, notes: Option<Json.Value>)
    requires UpdateNotes(db, ObjectId(id), notes).reply.Ok?
    ensures var r := UpdateNotes(db, ObjectId(id), notes);
      var before := db.submissions[id];
      var after := r.db.submissions[id];
      after.form == before.form && after.answers == before.answers
      && after.photos == before.photos && after.submittedAt == before.submittedAt
      && (forall k :: k in db.submissions && k != id ==> k in r.db.submissions && r.db.submissions[k] == db.submissions[k])
      && r.db.submissions.Keys == db.submissions.Keys
      && r.db.forms == db.forms && r.db.blobs == db.blobs
      && (notes.None? ==> after.notes == "")
  {
  }

  /** DELETE /api/submissions/:id: unlinks each recorded photo best-effort,
      then removes the record. */
  function DeleteSubmission(db: Db, p: IdParam, unlinkFails: set<string>): (r: Step<string>)
    ensures p.Malformed? ==> r == Step(db, Error(500, "Failed to delete submission"))
    ensures p.ObjectId? && p.id !in db.submissions ==> r == Step(db, Error(404, "Submission not found"))
    ensures p.ObjectId? && p.id in db.submissions ==>
      r.reply == Ok(200, "Submission deleted")
      && r.db.submissions == db.submissions - {p.id}
      && (forall b :: b in r.db.blobs <==> b in db.blobs && (b !in db.submissions[p.id].photos || b in unlinkFails))
      && r.db.forms == db.forms && r.db.formOrder == db.formOrder && r.db.nextId == db.nextId
      && r.db.submissionOrder == Without(db.submissionOrder, {p.id})
    ensures Valid(db) ==> Valid(r.db)
  {
    match p
    case Malformed => Step(db, Error(500, "Failed to delete submission"))
    case ObjectId(id) =>
      if id !in db.submissions then Step(db, Error(404, "Submission not found"))
      else
        var photos := set b | b in db.submissions[id].photos;
        var db' := db.(submissions := db.submissions - {id},
                       submissionOrder := Without(db.submissionOrder, {id}),
                       blobs := db.blobs - (photos - unlinkFails));
        Step(db', Ok(200, "Submission deleted"))
  }

  /** After a delete whose unlinks all succeed, none of the submission's
      photos is in the blob store and the listing no longer holds it. */
  lemma DeleteSubmissionRemovesAll(db: Db, id: Id, unlinkFails: set<string>)
    requires Valid(db) && id in db.submissions
    requires forall q :: q in db.submissions[id].photos ==> q !in unlinkFails
    ensures var d := DeleteSubmission(db, ObjectId(id), unlinkFails).db;
      (forall q :: q in db.submissions[id].photos ==> q !in d.blobs)
      && forall x :: x in ListSubmissions(d, None).value ==> x.id != id
  {
    var d := DeleteSubmission(db, ObjectId(id), unlinkFails).db;
    ListSubmissionsMatches(d, None);
  }

  /** With the default upload directory, a submission made with uploads
      and then deleted takes its files with it (bar failed unlinks) and
      leaves the submissions as they were. */
  lemma UploadSubmitDelete(db: Db, formId: Id, files: seq<Incoming>, data: Payload, now: nat, unlinkFails: set<string>)
    requires Valid(db)
    requires var u := ReceiveUploads(db, UploadDir(None), files);
      CreateSubmission(u.db, ObjectId(formId), data, u.storedNames, now).reply.Ok?
    ensures var u := ReceiveUploads(db, UploadDir(None), files);
      var c := CreateSubmission(u.db, ObjectId(formId), data, u.storedNames, now);
      var d := DeleteSubmission(c.db, ObjectId(c.reply.value.id), unlinkFails);
      d.reply.Ok? && d.db.submissions == db.submissions
      && forall i :: 0 <= i < |files| ==>
        WrittenPath(UploadDir(None), u.storedNames[i]) in u.db.blobs
        && (WrittenPath(UploadDir(None), u.storedNames[i]) !in unlinkFails ==>
            WrittenPath(UploadDir(None), u.storedNames[i]) !in d.db.blobs)
  {
    var dir := UploadDir(None);
    var u := ReceiveUploads(db, dir, files);
    assert u.db.submissions == db.submissions && Valid(u.db);
    var c := CreateSubmission(u.db, ObjectId(formId), data, u.storedNames, now);
    var id := c.reply.value.id;
    var photos := c.db.submissions[id].photos;
    assert photos == PhotoPaths(u.storedNames);
    var d := DeleteSubmission(c.db, ObjectId(id), unlinkFails);
    assert c.db.submissions - {id} == db.submissions by {
      assert id !in db.submissions;
    }
    forall i | 0 <= i < |files|
      ensures WrittenPath(dir, u.storedNames[i]) in u.db.blobs
      ensures WrittenPath(dir, u.storedNames[i]) in photos
    {
      RecordedIsWrittenIff(dir, u.storedNames[i]);
      assert photos[i] == RecordedPath(u.storedNames[i]);
    }
  }
}
