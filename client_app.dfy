/** The browser client of the server-backed version: the form builder's
    in-place edits of the field list, the collection of answers when a
    client submits a form (with the required-field checks that abort it),
    the order in which photos are attached, and the small display and link
    helpers of the dashboard and the forms page. */
module ClientApp {
  import opened Common
  import Json
  import opened FormModel
  import opened ListEdit
  import opened Uploads
  import opened Store
  import opened SubmissionModel
  import SubmissionController

  /** The form builder: `currentForm`, the list of fields being edited. */
  class Editor {
    var fields: seq<Field>

    constructor ()
      ensures fields == []
    {
      fields := [];
    }

    /** `addField`: the label input is trimmed; an empty label raises an
        alert and changes nothing, otherwise the new field is appended. */
    method AddField(kind: string, labelInput: string, required: bool) returns (alert: Option<string>)
      modifies this
      ensures alert.Some? <==> AllSpace(labelInput)
      ensures alert.Some? ==> alert.value == "Please enter a field label." && fields == old(fields)
      ensures alert.None? ==> (fields == old(fields) + [Field(Trim(labelInput), kind, required)]
        && Trim(labelInput) != [])
    {
      var labelText := Trim(labelInput);
      TrimEmptyIff(labelInput);
      if labelText == [] {
        alert := Some("Please enter a field label.");
        return;
      }
      fields := fields + [Field(labelText, kind, required)];
      alert := None;
    }

    /** `deleteField(index)`: `currentForm.splice(index, 1)`. */
    method DeleteField(index: int)
      modifies this
      ensures fields == RemoveAt(old(fields), index)
      ensures 0 <= index < |old(fields)| ==> fields == old(fields)[..index] + old(fields)[index + 1..]
    {
      RemoveAtIndex(fields, index);
      fields := Splice(fields, index, 1, []).result;
    }

    /** The drop handler: nothing when the field is dropped on itself,
        otherwise it is spliced out and spliced back in at `to`. */
    method Drop(from: nat, to: nat)
      requires from < |fields| && to < |fields|
      modifies this
      ensures fields == Move(old(fields), from, to)
      ensures |fields| == |old(fields)| && fields[to] == old(fields)[from]
      ensures multiset(fields) == multiset(old(fields))
    {
      MoveSpec(fields, from, to);
      if from == to {
        return;
      }
      SpliceShape(fields, from, 1, []);
      var cut := Splice(fields, from, 1, []);
      var moved := cut.removed[0];
      fields := Splice(cut.result, to, 0, [moved]).result;
    }
  }

  /** The input rendered for one field, as the submit handler finds it:
      absent when no element has the field's id; otherwise its text value,
      its checked state and its chosen files. */
  datatype Control = Absent | Control(value: string, checked: bool, files: seq<string>)

  /** The answer a field contributes: none for a file field or a missing
      element, the checked state for a checkbox, the trimmed text for any
      other kind. */
  function Answer(f: Field, c: Control): (r: Option<Json.Value>)
    ensures c.Absent? || f.kind == "file" ==> r.None?
    ensures c.Control? && f.kind == "checkbox" ==> r == Some(Json.Bool(c.checked))
    ensures c.Control? && f.kind != "file" && f.kind != "checkbox" ==> r == Some(Json.Str(Trim(c.value)))
  {
    if c.Absent? || f.kind == "file" then None
    else if f.kind == "checkbox" then Some(Json.Bool(c.checked))
    else Some(Json.Str(Trim(c.value)))
  }

  /** A required file field with no files, or a required text-like field
      that is empty after trimming, stops the submission. */
  predicate Fails(f: Field, c: Control) {
    c.Control? && f.required
    && (if f.kind == "file" then |c.files| == 0
        else f.kind != "checkbox" && Trim(c.value) == [])
  }

  function AlertFor(f: Field): string {
    if f.kind == "file" then "Please upload photos for: " + f.labelText
    else "Please fill in: " + f.labelText
  }

  /** What the submit handler does before sending: stop with an alert, or
      go on with the answers map. */
  datatype Outcome = Aborted(alert: string) | Collected(answers: map<string, Json.Value>)

  /** None of the first `n` fields fails its check. */
  predicate NoneFails(fields: seq<Field>, controls: seq<Control>, n: nat)
    requires |controls| == |fields| && n <= |fields|
  {
    forall j :: 0 <= j < n ==> !Fails(fields[j], controls[j])
  }

  /** The first of the first `n` fields that fails its check: the failure
      reported is the first failing field in field order, and there is none
      exactly when no field fails. */
  function FirstFailure(fields: seq<Field>, controls: seq<Control>, n: nat): (r: Option<nat>)
    requires |controls| == |fields| && n <= |fields|
    ensures r.Some? ==> r.value < n
    ensures r.None? <==> NoneFails(fields, controls, n)
    ensures r.Some? ==> Fails(fields[r.value], controls[r.value]) && NoneFails(fields, controls, r.value)
  {
    if n == 0 then None
    else match FirstFailure(fields, controls, n - 1)
      case Some(k) => Some(k)
      case None => if Fails(fields[n - 1], controls[n - 1]) then Some(n - 1) else None
  }

  /** The answers map after the first `n` fields: each field's answer is
      stored under its label, a later one over an earlier one, except that
      the label `__proto__` adds no key to the object literal. */
  function AnswersUpTo(fields: seq<Field>, controls: seq<Control>, n: nat): map<string, Json.Value>
    requires |controls| == |fields| && n <= |fields|
  {
    if n == 0 then map[]
    else
      var m := AnswersUpTo(fields, controls, n - 1);
      match Answer(fields[n - 1], controls[n - 1])
      case None => m
      case Some(v) => Json.Assign(m, fields[n - 1].labelText, v)
  }

  function Collect(fields: seq<Field>, controls: seq<Control>): Outcome
    requires |controls| == |fields|
  {
    match FirstFailure(fields, controls, |fields|)
    case Some(k) => Aborted(AlertFor(fields[k]))
    case None => Collected(AnswersUpTo(fields, controls, |fields|))
  }

  /** A failure found among the first `n` fields stays the first one. */
  lemma {:induction false} FirstFailureStable(fields: seq<Field>, controls: seq<Control>, n: nat, m: nat)
    requires |controls| == |fields| && n <= m <= |fields|
    requires FirstFailure(fields, controls, n).Some?
    ensures FirstFailure(fields, controls, m) == FirstFailure(fields, controls, n)
    decreases m
  {
    if m > n {
      FirstFailureStable(fields, controls, n, m - 1);
    }
  }

  /** Some one of the first `n` fields with label `l` gave an answer. */
  ghost predicate Answered(fields: seq<Field>, controls: seq<Control>, n: nat, l: string)
    requires |controls| == |fields| && n <= |fields|
  {
    exists j :: 0 <= j < n && Answer(fields[j], controls[j]).Some? && fields[j].labelText == l
  }

  lemma AnsweredStep(fields: seq<Field>, controls: seq<Control>, n: nat, l: string)
    requires |controls| == |fields| && 0 < n <= |fields|
    ensures Answered(fields, controls, n, l) <==>
      Answered(fields, controls, n - 1, l)
      || (Answer(fields[n - 1], controls[n - 1]).Some? && fields[n - 1].labelText == l)
  {
    if Answered(fields, controls, n, l) {
      var j :| 0 <= j < n && Answer(fields[j], controls[j]).Some? && fields[j].labelText == l;
      if j < n - 1 {
        assert Answered(fields, controls, n - 1, l);
      }
    }
    if Answered(fields, controls, n - 1, l) {
      var j :| 0 <= j < n - 1 && Answer(fields[j], controls[j]).Some? && fields[j].labelText == l;
      assert 0 <= j < n;
    }
  }

  /** A label is in the answers map exactly when some field with that
      label gave an answer: file fields, missing elements and the label
      `__proto__` add no key. */
  lemma {:induction false} AnswersKeys(fields: seq<Field>, controls: seq<Control>, n: nat)
    requires |controls| == |fields| && n <= |fields|
    ensures forall l :: l in AnswersUpTo(fields, controls, n) <==> l != Json.ProtoKey && Answered(fields, controls, n, l)
  {
    if n > 0 {
      AnswersKeys(fields, controls, n - 1);
      forall l ensures l in AnswersUpTo(fields, controls, n) <==> l != Json.ProtoKey && Answered(fields, controls, n, l) {
        AnsweredStep(fields, controls, n, l);
      }
    }
  }

  /** Under a label, the map holds the answer of the last field with that
      label that gave one: a duplicate label overwrites. */
  lemma {:induction false} AnswersLast(fields: seq<Field>, controls: seq<Control>, n: nat, j: nat)
    requires |controls| == |fields| && j < n <= |fields|
    requires Answer(fields[j], controls[j]).Some? && fields[j].labelText != Json.ProtoKey
    requires forall k :: j < k < n && fields[k].labelText == fields[j].labelText ==> Answer(fields[k], controls[k]).None?
    ensures fields[j].labelText in AnswersUpTo(fields, controls, n)
    ensures AnswersUpTo(fields, controls, n)[fields[j].labelText] == Answer(fields[j], controls[j]).value
  {
    if n - 1 > j {
      AnswersLast(fields, controls, n - 1, j);
    }
  }

  lemma CollectAbortsAt(fields: seq<Field>, controls: seq<Control>, i: nat)
    requires |controls| == |fields| && i < |fields|
    requires FirstFailure(fields, controls, i).None? && Fails(fields[i], controls[i])
    ensures Collect(fields, controls) == Aborted(AlertFor(fields[i]))
  {
    FirstFailureStable(fields, controls, i + 1, |fields|);
  }

  lemma CollectStep(fields: seq<Field>, controls: seq<Control>, i: nat)
    requires |controls| == |fields| && i < |fields|
    requires FirstFailure(fields, controls, i).None? && !Fails(fields[i], controls[i])
    ensures FirstFailure(fields, controls, i + 1).None?
    ensures AnswersUpTo(fields, controls, i + 1) ==
      if Answer(fields[i], controls[i]).Some?
      then Json.Assign(AnswersUpTo(fields, controls, i), fields[i].labelText, Answer(fields[i], controls[i]).value)
      else AnswersUpTo(fields, controls, i)
  {
  }

  /** The loop of `submitClientForm` that builds `answers`, returning at
      the first required field that is not filled in. */
  method CollectAnswers(fields: seq<Field>, controls: seq<Control>) returns (out: Outcome)
    requires |controls| == |fields|
    ensures out == Collect(fields, controls)
  {
    var answers: map<string, Json.Value> := map[];
    var i := 0;
    while i < |fields|
      invariant 0 <= i <= |fields|
      invariant FirstFailure(fields, controls, i).None?
      invariant answers == AnswersUpTo(fields, controls, i)
    {
      var field := fields[i];
      var el := controls[i];
      if el.Control? {
        if field.kind == "file" {
          if field.required && |el.files| == 0 {
            CollectAbortsAt(fields, controls, i);
            return Aborted("Please upload photos for: " + field.labelText);
          }
        } else if field.kind == "checkbox" {
          answers := Json.Assign(answers, field.labelText, Json.Bool(el.checked));
        } else {
          var val := Trim(el.value);
          if field.required && val == [] {
            CollectAbortsAt(fields, controls, i);
            return Aborted("Please fill in: " + field.labelText);
          }
          answers := Json.Assign(answers, field.labelText, Json.Str(val));
        }
      }
      CollectStep(fields, controls, i);
      i := i + 1;
    }
    return Collected(answers);
  }

  /** The photos of the first `n` fields, in field order and, within a
      field, in the order the files were chosen. */
  function Attachments(fields: seq<Field>, controls: seq<Control>, n: nat): seq<string>
    requires |controls| == |fields| && n <= |fields|
  {
    if n == 0 then []
    else
      var before := Attachments(fields, controls, n - 1);
      if fields[n - 1].kind == "file" && controls[n - 1].Control? then before + controls[n - 1].files else before
  }

  /** The photos sent are exactly the files chosen in file fields. */
  lemma {:induction false} AttachmentsContents(fields: seq<Field>, controls: seq<Control>, n: nat)
    requires |controls| == |fields| && n <= |fields|
    ensures forall p :: p in Attachments(fields, controls, n) <==>
      exists i :: 0 <= i < n && fields[i].kind == "file" && controls[i].Control? && p in controls[i].files
  {
    if n > 0 {
      AttachmentsContents(fields, controls, n - 1);
    }
  }

  /** The second loop of `submitClientForm`: appends the files of each file
      field to the form data as `photos`. */
  method AttachPhotos(fields: seq<Field>, controls: seq<Control>) returns (photos: seq<string>)
    requires |controls| == |fields|
    ensures photos == Attachments(fields, controls, |fields|)
  {
    photos := [];
    for i := 0 to |fields|
      invariant photos == Attachments(fields, controls, i)
    {
      if fields[i].kind == "file" {
        var el := controls[i];
        if el.Control? {
          var j := 0;
          while j < |el.files|
            invariant 0 <= j <= |el.files|
            invariant photos == Attachments(fields, controls, i) + el.files[..j]
          {
            photos := photos + [el.files[j]];
            j := j + 1;
          }
          assert el.files[..j] == el.files;
        }
      }
    }
  }

  /** The `data` field the client sends: `JSON.stringify({ answers })`, as
      the server's `JSON.parse` reads it back. */
  function SubmitData(answers: map<string, Json.Value>): SubmissionController.Payload {
    SubmissionController.Parsed(Json.Object(map["answers" := Json.Object(answers)]))
  }

  /** What the client collects is what the server stores: sent to an
      existing form, the answers map becomes the submission's answers and
      the notes start empty. */
  lemma SubmitDataStored(db: Db, formId: Id, answers: map<string, Json.Value>, storedNames: seq<string>, now: nat)
    requires formId in db.forms
    ensures var r := SubmissionController.CreateSubmission(db, ObjectId(formId), SubmitData(answers), storedNames, now);
      r.reply.Ok? && r.reply.value.doc.answers == Json.Object(answers) && r.reply.value.doc.notes == ""
      && r.reply.value.doc.photos == SubmissionController.PhotoPaths(storedNames)
  {
  }

  /** How the dashboard shows an answer. */
  datatype Shown = Yes | No | NotProvided | AsIs(v: Json.Value)

  /** `val === true ? 'Yes' : val === false ? 'No' : (val || 'Not provided')`. */
  function Display(v: Json.Value): (r: Shown)
    ensures r == Yes <==> v == Json.Bool(true)
    ensures r == No <==> v == Json.Bool(false)
    ensures r == NotProvided <==> !Json.Truthy(v) && !v.Bool?
    ensures r.AsIs? ==> r.v == v && Json.Truthy(v)
  {
    if v == Json.Bool(true) then Yes
    else if v == Json.Bool(false) then No
    else if Json.Truthy(v) then AsIs(v)
    else NotProvided
  }

  /** A collected checkbox answer shows as Yes or No; a text answer shows
      as "Not provided" exactly when it was blank. */
  lemma DisplayAnswer(f: Field, c: Control)
    requires Answer(f, c).Some?
    ensures f.kind == "checkbox" ==> Display(Answer(f, c).value) == (if c.checked then Yes else No)
    ensures f.kind != "checkbox" ==>
      (Display(Answer(f, c).value) == NotProvided <==> AllSpace(c.value))
  {
    TrimEmptyIff(c.value);
  }

  /** `p.replace(/^\/+/, '')`. */
  function StripLeadingSlashes(p: string): (r: string)
    ensures r == [] || r[0] != '/'
    ensures |r| <= |p| && r == p[|p| - |r|..]
    ensures forall i :: 0 <= i < |p| - |r| ==> p[i] == '/'
  {
    if p != [] && p[0] == '/' then StripLeadingSlashes(p[1..]) else p
  }

  /** The image URL for a stored photo path: one leading slash, then the
      path without its leading slashes. */
  function PhotoUrl(p: string): (r: string)
    ensures |r| >= 1 && r[0] == '/' && (|r| == 1 || r[1] != '/')
    ensures r[1..] == StripLeadingSlashes(p)
  {
    "/" + StripLeadingSlashes(p)
  }

  /** A path that does not start with a slash is left as it is. */
  lemma StripNothing(p: string)
    requires p == [] || p[0] != '/'
    ensures StripLeadingSlashes(p) == p
  {
  }

  /** Normalising a URL that is already normal changes nothing. */
  lemma PhotoUrlNormal(p: string)
    ensures PhotoUrl(PhotoUrl(p)) == PhotoUrl(p)
  {
    var t := StripLeadingSlashes(p);
    var r := PhotoUrl(p);
    assert r == "/" + t;
    assert StripLeadingSlashes(r) == StripLeadingSlashes(r[1..]);
    assert r[1..] == t;
    StripNothing(t);
  }

  /** The path the server records for an upload is served under
      `/uploads/`. */
  lemma PhotoUrlOfRecorded(storedName: string)
    ensures PhotoUrl(RecordedPath(storedName)) == "/uploads/" + storedName
  {
    var q := RecordedPath(storedName);
    assert q[0] == 'u';
    StripNothing(q);
  }

  /** `pathname.replace(/[^\/]+$/, '')`: the trailing run of characters
      other than `/` is removed. */
  function Directory(pathname: string): (r: string)
    ensures |r| <= |pathname| && r == pathname[..|r|]
    ensures r == [] || r[|r| - 1] == '/'
    ensures forall i :: |r| <= i < |pathname| ==> pathname[i] != '/'
  {
    if pathname == [] || pathname[|pathname| - 1] == '/' then pathname
    else Directory(pathname[..|pathname| - 1])
  }

  /** `copyClientLink`: the client page next to the current page, with the
      form id as the `formID` query parameter. */
  function ClientLink(origin: string, pathname: string, formId: string): string {
    origin + Directory(pathname) + "form.html?formID=" + formId
  }

  /** The directory of `dir + page`, where `dir` is empty or ends in a
      slash and `page` has no slash, is `dir`. */
  lemma {:induction false} DirectoryOfPage(dir: string, page: string)
    requires dir == [] || dir[|dir| - 1] == '/'
    requires forall i :: 0 <= i < |page| ==> page[i] != '/'
    ensures Directory(dir + page) == dir
    decreases |page|
  {
    if page == [] {
      assert dir + page == dir;
    } else {
      var p := dir + page;
      assert p[|p| - 1] == page[|page| - 1];
      assert p[..|p| - 1] == dir + page[..|page| - 1];
      DirectoryOfPage(dir, page[..|page| - 1]);
    }
  }

  /** From a page `dir + page`, where `dir` ends in a slash and `page` has
      none, the link points at `form.html` in the same directory. */
  lemma ClientLinkSibling(origin: string, dir: string, page: string, formId: string)
    requires dir == [] || dir[|dir| - 1] == '/'
    requires forall i :: 0 <= i < |page| ==> page[i] != '/'
    ensures ClientLink(origin, dir + page, formId) == origin + dir + "form.html?formID=" + formId
  {
    DirectoryOfPage(dir, page);
  }
}
