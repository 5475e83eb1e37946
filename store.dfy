/** The document store the controllers work against, as one value: the
    Forms and Submissions collections (each a map from id to record plus the
    order in which the records were inserted, which is the order in which an
    unsorted query returns them), the blob store of uploaded files as a set
    of paths, and the next id the store will hand out. */
module Store {
  import opened Common
  import opened FormModel
  import opened SubmissionModel

  /** A path parameter after Mongoose's ObjectId cast: a well-formed id, or
      one whose cast throws a CastError. */
  datatype IdParam = ObjectId(id: Id) | Malformed

  /** An HTTP reply: a status code and a JSON body, or an error status with
      the `error` message the handler sends. */
  datatype Reply<T> = Ok(status: nat, value: T) | Error(status: nat, message: string)

  /** A record together with the id the store gave it (`_id`). */
  datatype Stored<T> = Stored(id: Id, doc: T)

  datatype Db = Db(
    forms: map<Id, Form>,
    formOrder: seq<Id>,
    submissions: map<Id, Submission>,
    submissionOrder: seq<Id>,
    blobs: set<string>,
    nextId: Id)

  predicate Distinct(s: seq<Id>) {
    forall i, j :: 0 <= i < j < |s| ==> s[i] != s[j]
  }

  /** The order sequence lists each key of the collection exactly once. */
  predicate Indexes(keys: set<Id>, order: seq<Id>) {
    Distinct(order) && (forall id :: id in order ==> id in keys) && (forall id :: id in keys ==> id in order)
  }

  /** Consistency of the store: both orders index their collections, and
      every id in use was handed out before `nextId`. */
  predicate Valid(db: Db) {
    Indexes(db.forms.Keys, db.formOrder)
    && Indexes(db.submissions.Keys, db.submissionOrder)
    && (forall id :: id in db.forms ==> id < db.nextId)
    && (forall id :: id in db.submissions ==> id < db.nextId)
  }

  /** The store after a handler ran, and the handler's reply. */
  datatype Step<T> = Step(db: Db, reply: Reply<T>)

  const EmptyDb: Db := Db(map[], [], map[], [], {}, 0)

  /** `order` without the ids in `dead`, the rest in their order. */
  function Without(order: seq<Id>, dead: set<Id>): (r: seq<Id>)
    ensures forall id :: id in r <==> id in order && id !in dead
    ensures Distinct(order) ==> Distinct(r)
    ensures |r| <= |order|
  {
    if order == [] then []
    else if order[0] in dead then Without(order[1..], dead)
    else [order[0]] + Without(order[1..], dead)
  }

  /** Removing ids from a collection and from its order keeps the order an
      index of the collection. */
  lemma IndexesWithout<V>(m: map<Id, V>, order: seq<Id>, dead: set<Id>)
    requires Indexes(m.Keys, order)
    ensures Indexes((m - dead).Keys, Without(order, dead))
  {
  }

  /** Removing forms and submissions, together with their ids in the
      orders, keeps the store consistent whatever happens to the blobs. */
  lemma RemoveKeepsValid(db: Db, deadForms: set<Id>, deadSubmissions: set<Id>, blobs: set<string>)
    requires Valid(db)
    ensures Valid(Db(db.forms - deadForms, Without(db.formOrder, deadForms),
      db.submissions - deadSubmissions, Without(db.submissionOrder, deadSubmissions), blobs, db.nextId))
  {
    IndexesWithout(db.forms, db.formOrder, deadForms);
    IndexesWithout(db.submissions, db.submissionOrder, deadSubmissions);
  }

  /** Appending a fresh id keeps an order distinct. */
  lemma AppendFresh(order: seq<Id>, id: Id)
    requires Distinct(order) && id !in order
    ensures Distinct(order + [id])
  {
    var s := order + [id];
    forall i, j | 0 <= i < j < |s| ensures s[i] != s[j] {
      if j == |order| {
        assert s[i] == order[i];
      }
    }
  }

  /** The ids in `order` of the submissions that reference form `formId`,
      in order: what `Submission.find({ form })` returns. */
  function OfForm(order: seq<Id>, submissions: map<Id, Submission>, formId: Id): (r: seq<Id>)
    ensures forall s :: s in r <==> s in order && s in submissions && submissions[s].form == formId
    ensures Distinct(order) ==> Distinct(r)
    ensures |r| <= |order|
  {
    if order == [] then []
    else if order[0] in submissions && submissions[order[0]].form == formId
    then [order[0]] + OfForm(order[1..], submissions, formId)
    else OfForm(order[1..], submissions, formId)
  }

  /** A form that no submission references has no submissions to find. */
  lemma {:induction false} OfFormNone(order: seq<Id>, submissions: map<Id, Submission>, formId: Id)
    requires forall s :: s in submissions ==> submissions[s].form != formId
    ensures OfForm(order, submissions, formId) == []
  {
    if order != [] {
      OfFormNone(order[1..], submissions, formId);
    }
  }

  /** Every photo path recorded by the submissions `ids`. */
  function PhotosOf(submissions: map<Id, Submission>, ids: seq<Id>): (r: set<string>)
    ensures forall p :: p in r <==>
      exists k :: 0 <= k < |ids| && ids[k] in submissions && p in submissions[ids[k]].photos
  {
    if ids == [] then {}
    else
      var here := if ids[0] in submissions then set p | p in submissions[ids[0]].photos else {};
      assert forall p :: p in here <==> ids[0] in submissions && p in submissions[ids[0]].photos;
      var rest := PhotosOf(submissions, ids[1..]);
      assert forall p :: p in rest <==>
        exists k :: 1 <= k < |ids| && ids[k] in submissions && p in submissions[ids[k]].photos by {
        forall p | p in rest
          ensures exists k :: 1 <= k < |ids| && ids[k] in submissions && p in submissions[ids[k]].photos
        {
          var k :| 0 <= k < |ids[1..]| && ids[1..][k] in submissions && p in submissions[ids[1..][k]].photos;
          assert ids[k + 1] == ids[1..][k];
        }
        forall p, k | 1 <= k < |ids| && ids[k] in submissions && p in submissions[ids[k]].photos
          ensures p in rest
        {
          assert ids[1..][k - 1] == ids[k];
        }
      }
      here + rest
  }

  /** The photos of one more submission are added to the photos of the
      ones before it. */
  lemma PhotosOfSnoc(submissions: map<Id, Submission>, ids: seq<Id>, id: Id)
    requires id in submissions
    ensures PhotosOf(submissions, ids + [id]) == PhotosOf(submissions, ids) + (set p | p in submissions[id].photos)
  {
    var all := ids + [id];
    forall p | p in PhotosOf(submissions, all)
      ensures p in PhotosOf(submissions, ids) || p in submissions[id].photos
    {
      var k :| 0 <= k < |all| && all[k] in submissions && p in submissions[all[k]].photos;
      if k < |ids| {
        assert all[k] == ids[k];
      }
    }
    forall p | p in PhotosOf(submissions, ids) ensures p in PhotosOf(submissions, all) {
      var k :| 0 <= k < |ids| && ids[k] in submissions && p in submissions[ids[k]].photos;
      assert all[k] == ids[k];
    }
    forall p | p in submissions[id].photos ensures p in PhotosOf(submissions, all) {
      assert all[|ids|] == id;
    }
  }
}
