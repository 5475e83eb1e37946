/** The form handlers as steps on the store: listing, lookup, creation,
    update and the cascading delete. */
module FormController {
  import opened Common
  import opened FormModel
  import opened SubmissionModel
  import opened Store
  import SubmissionController

  /** What the form list shows of a form: its id and its name. */
  datatype Summary = Summary(id: Id, name: string)

  /** GET /api/forms: every form, in store order, as id and name only. */
  function ListForms(db: Db): (r: seq<Summary>)
    requires Valid(db)
    ensures |r| == |db.formOrder|
    ensures forall i :: 0 <= i < |r| ==>
      r[i].id == db.formOrder[i] && r[i].id in db.forms && r[i].name == db.forms[r[i].id].name
  {
    seq(|db.formOrder|, i requires 0 <= i < |db.formOrder| => Summary(db.formOrder[i], db.forms[db.formOrder[i]].name))
  }

  /** The list names every stored form exactly once and nothing else. */
  lemma ListFormsExactlyOnce(db: Db)
    requires Valid(db)
    ensures var r := ListForms(db);
      (forall id :: id in db.forms <==> exists i :: 0 <= i < |r| && r[i].id == id)
      && (forall i, j :: 0 <= i < j < |r| ==> r[i].id != r[j].id)
  {
    var r := ListForms(db);
    forall id | id in db.forms ensures exists i :: 0 <= i < |r| && r[i].id == id {
      var i :| 0 <= i < |db.formOrder| && db.formOrder[i] == id;
      assert r[i].id == id;
    }
  }

  /** GET /api/forms/:id. */
  function GetForm(db: Db, p: IdParam): (r: Reply<Stored<Form>>)
    ensures p.Malformed? ==> r == Error(500, "Server error fetching form")
    ensures p.ObjectId? && p.id !in db.forms ==> r == Error(404, "Form not found")
    ensures p.ObjectId? && p.id in db.forms ==> r == Ok(200, Stored(p.id, db.forms[p.id]))
  {
    match p
    case Malformed => Error(500, "Server error fetching form")
    case ObjectId(id) =>
      if id in db.forms then Ok(200, Stored(id, db.forms[id])) else Error(404, "Form not found")
  }

  /** POST /api/forms: validate, store under a fresh id, reply 201; a
      record that fails validation is not stored and gives 400. */
  function CreateForm(db: Db, name: Option<string>, fields: Option<seq<FieldInput>>, now: nat): (r: Step<Stored<Form>>)
    ensures NewForm(name, fields, now).None? ==> r == Step(db, Error(400, "Invalid form data"))
    ensures r.reply.Ok? ==> (r.reply.status == 201
      && r.reply.value.id == db.nextId && (Valid(db) ==> r.reply.value.id !in db.forms)
      && r.reply.value.doc.name == name.value
      && r.reply.value.doc.fields == CastFields(fields.GetOr([]))
      && r.reply.value.doc.createdAt == now
      && r.db == db.(forms := db.forms[db.nextId := r.reply.value.doc],
                     formOrder := db.formOrder + [db.nextId], nextId := db.nextId + 1))
    ensures NewForm(name, fields, now).Some? ==> r.reply.Ok?
    ensures Valid(db) ==> Valid(r.db)
  {
    match NewForm(name, fields, now)
    case None => Step(db, Error(400, "Invalid form data"))
    case Some(f) =>
      var id := db.nextId;
      var db' := db.(forms := db.forms[id := f], formOrder := db.formOrder + [id], nextId := id + 1);
      assert Valid(db) ==> Valid(db') by {
        if Valid(db) { AppendFresh(db.formOrder, id); }
      }
      Step(db', Ok(201, Stored(id, f)))
  }

  /** A created form reads back unchanged: same name, same fields in the
      same order, the generated id and the creation time. */
  lemma CreateThenGet(db: Db, name: Option<string>, fields: Option<seq<FieldInput>>, now: nat)
    requires Valid(db)
    requires CreateForm(db, name, fields, now).reply.Ok?
    ensures var r := CreateForm(db, name, fields, now);
      GetForm(r.db, ObjectId(r.reply.value.id)) == Ok(200, r.reply.value)
      && r.reply.value.doc == Form(name.value, CastFields(fields.GetOr([])), now)
  {
  }

  /** PUT /api/forms/:id: replaces name and fields of that form and
      replies with the new version. `findByIdAndUpdate` runs no
      validators, so the given values are only cast. */
  function UpdateForm(db: Db, p: IdParam, name: string, fields: seq<FieldInput>): (r: Step<Stored<Form>>)
    ensures p.Malformed? ==> r == Step(db, Error(400, "Invalid data"))
    ensures p.ObjectId? && p.id !in db.forms ==> r == Step(db, Error(404, "Form not found"))
    ensures p.ObjectId? && p.id in db.forms ==>
      var updated := Form(name, CastFields(fields), db.forms[p.id].createdAt);
      r.reply == Ok(200, Stored(p.id, updated))
      && r.db == db.(forms := db.forms[p.id := updated])
    ensures Valid(db) ==> Valid(r.db)
  {
    match p
    case Malformed => Step(db, Error(400, "Invalid data"))
    case ObjectId(id) =>
      if id !in db.forms then Step(db, Error(404, "Form not found"))
      else
        var updated := db.forms[id].(name := name, fields := CastFields(fields));
        Step(db.(forms := db.forms[id := updated]), Ok(200, Stored(id, updated)))
  }

  /** An update touches that one form only: every other form, every
      submission and every blob stay as they were. */
  lemma UpdateTouchesOneForm(db: Db, id: Id, name: string, fields: seq<FieldInput>)
    requires id in db.forms
    ensures var r := UpdateForm(db, ObjectId(id), name, fields);
      r.db.forms.Keys == db.forms.Keys
      && (forall k :: k in db.forms && k != id ==> r.db.forms[k] == db.forms[k])
      && r.db.submissions == db.submissions && r.db.blobs == db.blobs
  {
  }

  /** An update stores what the schema would reject on creation: an empty
      name stays empty. */
  lemma UpdateSkipsValidation(db: Db, id: Id)
    requires id in db.forms
    ensures var r := UpdateForm(db, ObjectId(id), "", []);
      r.reply.Ok? && !ValidForm(r.db.forms[id])
  {
  }

  /** The submissions removed with form `formId`, in store order. */
  function Cascade(db: Db, formId: Id): seq<Id> {
    OfForm(db.submissionOrder, db.submissions, formId)
  }

  /** The blob store after unlinking `paths`: each unlink that is not in
      `unlinkFails` removes its file; a failure is ignored. */
  function UnlinkAll(blobs: set<string>, paths: set<string>, unlinkFails: set<string>): (r: set<string>)
    ensures forall b :: b in r <==> b in blobs && (b !in paths || b in unlinkFails)
  {
    blobs - (paths - unlinkFails)
  }

  /** Unlinking one set of paths after another unlinks their union. */
  lemma UnlinkAllTwice(blobs: set<string>, first: set<string>, second: set<string>, unlinkFails: set<string>)
    ensures UnlinkAll(UnlinkAll(blobs, first, unlinkFails), second, unlinkFails) == UnlinkAll(blobs, first + second, unlinkFails)
  {
  }

  /** DELETE /api/forms/:id: deletes the form, unlinks every photo of every
      submission of that form best-effort, bulk-deletes those submissions,
      and replies success whether or not the form existed. */
  function DeleteForm(db: Db, p: IdParam, unlinkFails: set<string>): (r: Step<string>)
    ensures p.Malformed? ==> r == Step(db, Error(500, "Server error deleting form"))
    ensures p.ObjectId? ==> r.reply == Ok(200, "Form and related submissions deleted")
    ensures p.ObjectId? ==> (r.db.forms == db.forms - {p.id}
      && (forall s :: s in r.db.submissions <==> s in db.submissions && db.submissions[s].form != p.id)
      && (forall s :: s in r.db.submissions ==> r.db.submissions[s] == db.submissions[s])
      && r.db.blobs == UnlinkAll(db.blobs, PhotosOf(db.submissions, Cascade(db, p.id)), unlinkFails)
      && r.db.nextId == db.nextId)
    ensures p.ObjectId? ==> (r.db.formOrder == Without(db.formOrder, {p.id})
      && r.db.submissionOrder == Without(db.submissionOrder, set s | s in db.submissions && db.submissions[s].form == p.id))
    ensures Valid(db) ==> Valid(r.db)
  {
    match p
    case Malformed => Step(db, Error(500, "Server error deleting form"))
    case ObjectId(id) =>
      var dead := Cascade(db, id);
      var gone := set s | s in db.submissions && db.submissions[s].form == id;
      var db' := Db(
        db.forms - {id}, Without(db.formOrder, {id}),
        db.submissions - gone, Without(db.submissionOrder, gone),
        UnlinkAll(db.blobs, PhotosOf(db.submissions, dead), unlinkFails),
        db.nextId);
      assert Valid(db) ==> Valid(db') by {
        if Valid(db) { RemoveKeepsValid(db, {id}, gone, db'.blobs); }
      }
      assert forall s :: s in db'.submissions <==> s in db.submissions && db.submissions[s].form != id;
      Step(db', Ok(200, "Form and related submissions deleted"))
  }

  /** After deleting a form, no form has that id and no submission refers
      to it: listing the form's submissions gives the empty list. */
  lemma DeleteFormRemovesAll(db: Db, id: Id, unlinkFails: set<string>)
    requires Valid(db)
    ensures var d := DeleteForm(db, ObjectId(id), unlinkFails).db;
      id !in d.forms
      && (forall s :: s in d.submissions ==> d.submissions[s].form != id)
      && SubmissionController.ListSubmissions(d, Some(ObjectId(id))) == Ok(200, [])
  {
    var d := DeleteForm(db, ObjectId(id), unlinkFails).db;
    OfFormNone(d.submissionOrder, d.submissions, id);
    assert SubmissionController.Selected(d, Some(id)) == [];
  }

  /** A blob that no cascaded submission records is left alone, and one
      that a cascaded submission records is gone unless its unlink failed.
      So the photos of other forms' submissions stay, unless a cascaded
      submission records the same path. */
  lemma DeleteFormBlobs(db: Db, id: Id, unlinkFails: set<string>, path: string)
    requires Valid(db)
    ensures var d := DeleteForm(db, ObjectId(id), unlinkFails).db;
      ((forall s :: s in db.submissions && db.submissions[s].form == id ==> path !in db.submissions[s].photos)
        ==> (path in d.blobs <==> path in db.blobs))
      && (((exists s :: s in db.submissions && db.submissions[s].form == id && path in db.submissions[s].photos)
           && path !in unlinkFails) ==> path !in d.blobs)
  {
    var dead := Cascade(db, id);
    var d := DeleteForm(db, ObjectId(id), unlinkFails).db;
    if exists s :: s in db.submissions && db.submissions[s].form == id && path in db.submissions[s].photos {
      var s :| s in db.submissions && db.submissions[s].form == id && path in db.submissions[s].photos;
      assert s in db.submissionOrder;
      var k :| 0 <= k < |dead| && dead[k] == s;
      assert path in PhotosOf(db.submissions, dead);
    }
  }

  lemma WithoutAbsent(order: seq<Id>, dead: set<Id>)
    requires forall id :: id in order ==> id !in dead
    ensures Without(order, dead) == order
  {
  }

  /** Deleting a form that is gone and has no submissions changes nothing. */
  lemma DeleteAbsentForm(d: Db, id: Id, unlinkFails: set<string>)
    requires Valid(d) && id !in d.forms
    requires forall s :: s in d.submissions ==> d.submissions[s].form != id
    ensures DeleteForm(d, ObjectId(id), unlinkFails).db == d
  {
    var dead := Cascade(d, id);
    OfFormNone(d.submissionOrder, d.submissions, id);
    var gone := set s | s in d.submissions && d.submissions[s].form == id;
    assert gone == {};
    assert d.submissions - gone == d.submissions;
    WithoutAbsent(d.formOrder, {id});
    WithoutAbsent(d.submissionOrder, {});
    assert d.forms - {id} == d.forms;
    assert dead == [];
    assert PhotosOf(d.submissions, dead) == {};
    assert UnlinkAll(d.blobs, {}, unlinkFails) == d.blobs;
  }

  /** Deleting a form twice leaves the store as the first delete left it
      and gives the same reply: the delete is idempotent, whatever unlinks
      fail the second time. */
  lemma DeleteFormIdempotent(db: Db, p: IdParam, fails1: set<string>, fails2: set<string>)
    requires Valid(db)
    ensures var first := DeleteForm(db, p, fails1);
      DeleteForm(first.db, p, fails2) == first
  {
    if p.ObjectId? {
      var first := DeleteForm(db, p, fails1);
      DeleteAbsentForm(first.db, p.id, fails2);
    }
  }
}
