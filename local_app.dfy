/** The superseded browser-only version: all forms and submissions live in
    two global lists kept in local storage and are addressed by their index
    in those lists. The editing session (the fields being edited and the
    index of the form they came from) is kept in local storage as well,
    between the forms page and the edit page. */
module LocalApp {
  import opened Common
  import Json
  import opened FormModel
  import opened ListEdit
  import ClientApp

  /** A saved form: `{ name, fields }`. */
  datatype LocalForm = LocalForm(name: string, fields: seq<Field>)

  /** A submission: a plain object keyed by field label, with the two
      bookkeeping keys `_submittedAt` and `_notes`. */
  type Record = map<string, Json.Value>

  /** `editingIndex`: `null` for a new form, a number, or `NaN` when
      `parseInt` found no digits. */
  datatype EditIndex = NewForm | Index(n: int) | NotANumber

  /** The eleven fields every new form starts from. */
  const DefaultFields: seq<Field> := [
    Field("Full Name", "text", true),
    Field("Phone Number", "text", true),
    Field("Email Address", "text", true),
    Field("Vehicle Year", "number", true),
    Field("Vehicle Make", "text", true),
    Field("Vehicle Model", "text", true),
    Field("Mileage", "number", true),
    Field("VIN", "text", false),
    Field("Has Keys?", "checkbox", false),
    Field("Vehicle Photos", "file", true),
    Field("Accident History", "textarea", false)
  ]

  /** What `localStorage.setItem` stores for `editingIndex`: its string
      conversion. */
  function IndexText(e: EditIndex): string {
    match e
    case NewForm => "null"
    case Index(n) => IntToString(n)
    case NotANumber => "NaN"
  }

  /** `idx === "null" ? null : parseInt(idx)` with no radix, where a
      missing item reads as `null` and `parseInt(null)` parses the text
      "null". */
  function ParseIndex(idx: Option<string>): (r: EditIndex)
    ensures idx == Some("null") ==> r == NewForm
    ensures idx.None? ==> r == NotANumber
  {
    if idx == Some("null") then NewForm
    else match ParseInt(idx.GetOr("null"))
      case None => NotANumber
      case Some(n) => Index(n)
  }

  /** Storing the index and reading it back gives the same index. */
  lemma IndexRoundTrip(e: EditIndex)
    ensures ParseIndex(Some(IndexText(e))) == e
  {
    match e
    case NewForm =>
    case Index(n) =>
      ParseIntOfIntToString(n);
      assert IndexText(e) != "null" by {
        if n < 0 { assert IndexText(e)[0] == '-'; } else { assert IsDigit(IndexText(e)[0]); }
      }
    case NotANumber =>
      assert TrimStart("NaN") == "NaN";
      assert DigitPrefix("NaN") == [];
  }

  /** The radix-less `parseInt` reads a `0x` or `0X` entry as
      hexadecimal, and a bare prefix as `NaN`. */
  lemma ParseIndexHex()
    ensures ParseIndex(Some("0x1")) == Index(1)
    ensures ParseIndex(Some("-0X1A")) == Index(-26)
    ensures ParseIndex(Some("0x")) == NotANumber
  {
    assert TrimStart("0x1") == "0x1";
    assert HexPrefix("1") == "1";
    assert TrimStart("-0X1A") == "-0X1A";
    assert "-0X1A"[1..][2..] == "1A";
    assert HexPrefix("1A") == "1A" by {
      assert HexPrefix("A") == "A";
    }
    assert "1A"[..1] == "1";
    assert TrimStart("0x") == "0x";
    assert HexPrefix("0x"[2..]) == [];
  }

  /** `savedForms[formID]` for the `formID` query parameter: a property
      read, so only the canonical decimal text of an index in range finds
      a form. */
  function FormAt(count: nat, formId: Option<string>): (r: Option<nat>)
    ensures r.Some? ==> r.value < count && formId == Some(NatToString(r.value))
  {
    if formId.None? then None
    else match ParseInt(formId.value)
      case Some(n) => if 0 <= n < count && NatToString(n) == formId.value then Some(n) else None
      case None => None
  }

  /** The link `copyClientLink(index)` builds carries the index in
      canonical form, so the client page finds exactly that form. */
  lemma FormAtLink(count: nat, index: nat)
    requires index < count
    ensures FormAt(count, Some(NatToString(index))) == Some(index)
  {
    ParseIntOfIntToString(index);
  }

  /** The element for field `i`, or none when the page has no such id. */
  function ControlAt(controls: seq<ClientApp.Control>, i: nat): ClientApp.Control {
    if i < |controls| then controls[i] else ClientApp.Absent
  }

  /** The controls for fields `0 .. n-1`. */
  function ControlsFor(controls: seq<ClientApp.Control>, n: nat): (r: seq<ClientApp.Control>)
    ensures |r| == n && forall i :: 0 <= i < n ==> r[i] == ControlAt(controls, i)
  {
    seq(n, i requires 0 <= i < n => ControlAt(controls, i))
  }

  /** What a field stores in the record: the list of object URLs for a
      file field (its files are given by those URLs), the checked state for
      a checkbox, the trimmed text otherwise; nothing for a missing element. */
  function Entry(f: Field, c: ClientApp.Control): (r: Option<Json.Value>)
    ensures c.Absent? ==> r.None?
    ensures c.Control? && f.kind == "file" ==> (r.Some? && r.value.Array?
      && |r.value.items| == |c.files|
      && forall i :: 0 <= i < |c.files| ==> r.value.items[i] == Json.Str(c.files[i]))
    ensures c.Control? && f.kind == "checkbox" ==> r == Some(Json.Bool(c.checked))
    ensures c.Control? && f.kind != "file" && f.kind != "checkbox" ==> r == Some(Json.Str(Trim(c.value)))
  {
    if c.Absent? then None
    else if f.kind == "file" then Some(Json.Array(seq(|c.files|, i requires 0 <= i < |c.files| => Json.Str(c.files[i]))))
    else if f.kind == "checkbox" then Some(Json.Bool(c.checked))
    else Some(Json.Str(Trim(c.value)))
  }

  /** The record after the first `n` fields. */
  function RecordUpTo(fields: seq<Field>, controls: seq<ClientApp.Control>, n: nat, stamp: string): Record
    requires n <= |fields|
  {
    if n == 0 then map["_submittedAt" := Json.Str(stamp), "_notes" := Json.Str("")]
    else
      var m := RecordUpTo(fields, controls, n - 1, stamp);
      match Entry(fields[n - 1], ControlAt(controls, n - 1))
      case None => m
      case Some(v) => Json.Assign(m, fields[n - 1].labelText, v)
  }

  /** Some one of the first `n` fields with label `k` has an element. */
  ghost predicate Labelled(fields: seq<Field>, controls: seq<ClientApp.Control>, n: nat, k: string)
    requires n <= |fields|
  {
    exists j :: 0 <= j < n && ControlAt(controls, j).Control? && fields[j].labelText == k
  }

  lemma LabelledStep(fields: seq<Field>, controls: seq<ClientApp.Control>, n: nat, k: string)
    requires 0 < n <= |fields|
    ensures Labelled(fields, controls, n, k) <==>
      Labelled(fields, controls, n - 1, k)
      || (ControlAt(controls, n - 1).Control? && fields[n - 1].labelText == k)
  {
    if Labelled(fields, controls, n, k) {
      var j :| 0 <= j < n && ControlAt(controls, j).Control? && fields[j].labelText == k;
      if j < n - 1 {
        assert Labelled(fields, controls, n - 1, k);
      }
    }
    if Labelled(fields, controls, n - 1, k) {
      var j :| 0 <= j < n - 1 && ControlAt(controls, j).Control? && fields[j].labelText == k;
      assert 0 <= j < n;
    }
  }

  /** The record holds the two bookkeeping keys and one key per field that
      has an element, except `__proto__`, which sets the record's prototype
      or is ignored; `_notes` starts empty and `_submittedAt` holds the
      stamp unless a field has that label. */
  lemma {:induction false} RecordKeys(fields: seq<Field>, controls: seq<ClientApp.Control>, n: nat, stamp: string)
    requires n <= |fields|
    ensures forall k :: k in RecordUpTo(fields, controls, n, stamp) <==>
      (k == "_submittedAt" || k == "_notes" || (k != Json.ProtoKey && Labelled(fields, controls, n, k)))
    ensures (forall j :: 0 <= j < n ==> fields[j].labelText != "_notes") ==>
      RecordUpTo(fields, controls, n, stamp)["_notes"] == Json.Str("")
    ensures (forall j :: 0 <= j < n ==> fields[j].labelText != "_submittedAt") ==>
      RecordUpTo(fields, controls, n, stamp)["_submittedAt"] == Json.Str(stamp)
  {
    if n > 0 {
      RecordKeys(fields, controls, n - 1, stamp);
      forall k ensures k in RecordUpTo(fields, controls, n, stamp) <==>
        (k == "_submittedAt" || k == "_notes" || (k != Json.ProtoKey && Labelled(fields, controls, n, k)))
      {
        LabelledStep(fields, controls, n, k);
      }
    }
  }

  /** The dashboard lists the keys of a record that do not start with `_`. */
  function VisibleKeys(r: Record): (keys: set<string>)
    ensures forall k :: k in keys <==> k in r && !StartsWith(k, "_")
  {
    set k | k in r && !StartsWith(k, "_")
  }

  /** Of a fresh record the dashboard shows exactly the labels of the
      fields that had an element, except labels that start with `_`. */
  lemma VisibleKeysOfRecord(fields: seq<Field>, controls: seq<ClientApp.Control>, stamp: string)
    ensures forall k :: k in VisibleKeys(RecordUpTo(fields, controls, |fields|, stamp)) <==>
      (!StartsWith(k, "_") && Labelled(fields, controls, |fields|, k))
  {
    RecordKeys(fields, controls, |fields|, stamp);
    assert StartsWith("_submittedAt", "_") && StartsWith("_notes", "_") && StartsWith(Json.ProtoKey, "_");
  }

  /** What `saveFormAndReturn` did. */
  datatype SaveOutcome = Cancelled | Saved | Threw

  /** What `submitClientForm` did. */
  datatype SubmitOutcome = NoSuchForm | Alerted(message: string) | Submitted

  /** The application state: the two global lists, the form being edited
      and its index, and the editing session in local storage. */
  class LocalStore {
    var savedForms: seq<LocalForm>
    var submissions: seq<Record>
    var currentForm: seq<Field>
    var editingIndex: EditIndex
    var sessionForm: Option<seq<Field>>
    var sessionIndex: Option<string>

    /** Start-up with nothing in storage. */
    constructor ()
      ensures savedForms == [] && submissions == [] && currentForm == [] && editingIndex == NewForm
      ensures sessionForm.None? && sessionIndex.None?
    {
      savedForms, submissions := [], [];
      currentForm, editingIndex := [], NewForm;
      sessionForm, sessionIndex := None, None;
    }

    /** `saveEditingSession`. */
    method SaveEditingSession()
      modifies this
      ensures sessionForm == Some(currentForm) && sessionIndex == Some(IndexText(editingIndex))
      ensures savedForms == old(savedForms) && submissions == old(submissions)
      ensures currentForm == old(currentForm) && editingIndex == old(editingIndex)
    {
      sessionForm := Some(currentForm);
      sessionIndex := Some(IndexText(editingIndex));
    }

    /** `loadEditingSession`: restores the edited fields and index, or
        starts from the default template when there is no session. */
    method LoadEditingSession()
      modifies this
      ensures old(sessionForm).Some? ==> currentForm == old(sessionForm).value && editingIndex == ParseIndex(old(sessionIndex))
      ensures old(sessionForm).None? ==> currentForm == DefaultFields && editingIndex == NewForm
      ensures savedForms == old(savedForms) && submissions == old(submissions)
      ensures sessionForm == old(sessionForm) && sessionIndex == old(sessionIndex)
    {
      if sessionForm.Some? {
        currentForm := sessionForm.value;
        editingIndex := ParseIndex(sessionIndex);
      } else {
        currentForm := DefaultFields;
        editingIndex := NewForm;
      }
    }

    /** `createNewForm`: the edit page opens on a copy of the template, as
        a new form. */
    method CreateNewForm()
      modifies this
      ensures currentForm == DefaultFields && |currentForm| == 11 && editingIndex == NewForm
      ensures sessionForm == Some(DefaultFields) && sessionIndex == Some("null")
      ensures savedForms == old(savedForms) && submissions == old(submissions)
    {
      currentForm := DefaultFields;
      editingIndex := NewForm;
      SaveEditingSession();
    }

    /** `editForm(index)`: the edit page opens on the fields of that form;
        an index with no form throws before anything changes. */
    method EditForm(index: int) returns (threw: bool)
      modifies this
      ensures threw <==> !(0 <= index < |old(savedForms)|)
      ensures threw ==> (currentForm == old(currentForm) && editingIndex == old(editingIndex)
        && sessionForm == old(sessionForm) && sessionIndex == old(sessionIndex))
      ensures !threw ==> (currentForm == old(savedForms)[index].fields && editingIndex == Index(index)
        && sessionForm == Some(currentForm) && sessionIndex == Some(IntToString(index)))
      ensures savedForms == old(savedForms) && submissions == old(submissions)
    {
      if !(0 <= index < |savedForms|) {
        return true;
      }
      currentForm := savedForms[index].fields;
      editingIndex := Index(index);
      SaveEditingSession();
      return false;
    }

    /** `deleteForm(index)` after the confirmation: the form is spliced out,
        later forms move down one index, and no submission is touched. */
    method DeleteForm(index: int, confirmed: bool)
      modifies this
      ensures savedForms == (if confirmed then RemoveAt(old(savedForms), index) else old(savedForms))
      ensures submissions == old(submissions)
      ensures currentForm == old(currentForm) && editingIndex == old(editingIndex)
      ensures sessionForm == old(sessionForm) && sessionIndex == old(sessionIndex)
    {
      if confirmed {
        savedForms := Splice(savedForms, index, 1, []).result;
      }
    }

    /** `saveFormAndReturn`. A new form needs a name: the prompt's answer,
        trimmed; cancelling or a blank name returns without saving. An
        edited form keeps the name of the entry it replaces. An index with
        no form behind it throws before anything is saved. */
    method SaveFormAndReturn(prompted: Option<string>) returns (outcome: SaveOutcome)
      modifies this
      ensures old(editingIndex) == NewForm ==>
        (if prompted.None? || Trim(prompted.value) == []
         then outcome == Cancelled && savedForms == old(savedForms)
         else outcome == Saved && savedForms == old(savedForms) + [LocalForm(Trim(prompted.value), old(currentForm))])
      ensures old(editingIndex).Index? && 0 <= old(editingIndex).n < |old(savedForms)| ==>
        var i := old(editingIndex).n;
        outcome == Saved && savedForms == old(savedForms)[i := LocalForm(old(savedForms)[i].name, old(currentForm))]
      ensures old(editingIndex) == NotANumber || (old(editingIndex).Index? && !(0 <= old(editingIndex).n < |old(savedForms)|)) ==>
        outcome == Threw && savedForms == old(savedForms)
      ensures outcome == Saved ==> sessionForm.None? && sessionIndex.None?
      ensures outcome != Saved ==> sessionForm == old(sessionForm) && sessionIndex == old(sessionIndex)
      ensures submissions == old(submissions) && currentForm == old(currentForm) && editingIndex == old(editingIndex)
    {
      var name: string;
      match editingIndex {
        case NewForm =>
          if prompted.None? || Trim(prompted.value) == [] {
            return Cancelled;
          }
          name := Trim(prompted.value);
          savedForms := savedForms + [LocalForm(name, currentForm)];
        case NotANumber =>
          return Threw;
        case Index(i) =>
          if !(0 <= i < |savedForms|) {
            return Threw;
          }
          name := savedForms[i].name;
          savedForms := savedForms[i := LocalForm(name, currentForm)];
      }
      sessionForm, sessionIndex := None, None;
      return Saved;
    }

    /** `addField`, on the fields being edited. */
    method AddField(kind: string, labelInput: string, required: bool) returns (alerted: bool)
      modifies this
      ensures alerted <==> AllSpace(labelInput)
      ensures alerted ==> currentForm == old(currentForm)
      ensures !alerted ==> currentForm == old(currentForm) + [Field(Trim(labelInput), kind, required)]
      ensures savedForms == old(savedForms) && submissions == old(submissions) && editingIndex == old(editingIndex)
      ensures sessionForm == old(sessionForm) && sessionIndex == old(sessionIndex)
    {
      TrimEmptyIff(labelInput);
      var labelText := Trim(labelInput);
      if labelText == [] {
        return true;
      }
      currentForm := currentForm + [Field(labelText, kind, required)];
      return false;
    }

    /** `deleteField(index)`, on the fields being edited. */
    method DeleteField(index: int)
      modifies this
      ensures currentForm == RemoveAt(old(currentForm), index)
      ensures savedForms == old(savedForms) && submissions == old(submissions) && editingIndex == old(editingIndex)
      ensures sessionForm == old(sessionForm) && sessionIndex == old(sessionIndex)
    {
      currentForm := Splice(currentForm, index, 1, []).result;
    }

    /** The drop handler, on the fields being edited. */
    method Drop(from: nat, to: nat)
      requires from < |currentForm| && to < |currentForm|
      modifies this
      ensures currentForm == Move(old(currentForm), from, to)
      ensures savedForms == old(savedForms) && submissions == old(submissions) && editingIndex == old(editingIndex)
      ensures sessionForm == old(sessionForm) && sessionIndex == old(sessionIndex)
    {
      if from == to {
        return;
      }
      SpliceShape(currentForm, from, 1, []);
      var cut := Splice(currentForm, from, 1, []);
      currentForm := Splice(cut.result, to, 0, [cut.removed[0]]).result;
    }

    /** `submitClientForm`: looks the form up by the `formID` parameter,
        fills a record field by field, and appends it; a required field
        that is not filled in raises an alert and nothing is stored. */
    method SubmitClientForm(formId: Option<string>, controls: seq<ClientApp.Control>, stamp: string)
      returns (outcome: SubmitOutcome)
      modifies this
      ensures FormAt(|old(savedForms)|, formId).None? ==> outcome == NoSuchForm && submissions == old(submissions)
      ensures FormAt(|old(savedForms)|, formId).Some? ==>
        var fields := old(savedForms)[FormAt(|old(savedForms)|, formId).value].fields;
        match ClientApp.FirstFailure(fields, ControlsFor(controls, |fields|), |fields|)
        case Some(k) => outcome == Alerted(ClientApp.AlertFor(fields[k])) && submissions == old(submissions)
        case None => (outcome == Submitted
          && submissions == old(submissions) + [RecordUpTo(fields, controls, |fields|, stamp)])
      ensures savedForms == old(savedForms) && currentForm == old(currentForm) && editingIndex == old(editingIndex)
      ensures sessionForm == old(sessionForm) && sessionIndex == old(sessionIndex)
    {
      var at := FormAt(|savedForms|, formId);
      if at.None? {
        return NoSuchForm;
      }
      var fields := savedForms[at.value].fields;
      var alert, submission := FillRecord(fields, controls, stamp);
      if alert.Some? {
        return Alerted(alert.value);
      }
      submissions := submissions + [submission];
      return Submitted;
    }

    /** `saveNote(index)`: stores the trimmed note in that submission only;
        an index with no submission throws and changes nothing. */
    method SaveNote(index: int, input: string) returns (threw: bool)
      modifies this
      ensures threw <==> !(0 <= index < |old(submissions)|)
      ensures threw ==> submissions == old(submissions)
      ensures !threw ==> submissions == old(submissions)[index := old(submissions)[index]["_notes" := Json.Str(Trim(input))]]
      ensures savedForms == old(savedForms) && currentForm == old(currentForm) && editingIndex == old(editingIndex)
      ensures sessionForm == old(sessionForm) && sessionIndex == old(sessionIndex)
    {
      if !(0 <= index < |submissions|) {
        return true;
      }
      var updated := submissions[index]["_notes" := Json.Str(Trim(input))];
      submissions := submissions[index := updated];
      return false;
    }

    /** `deleteSubmission(index)` after the confirmation. */
    method DeleteSubmission(index: int, confirmed: bool)
      modifies this
      ensures submissions == (if confirmed then RemoveAt(old(submissions), index) else old(submissions))
      ensures savedForms == old(savedForms) && currentForm == old(currentForm) && editingIndex == old(editingIndex)
      ensures sessionForm == old(sessionForm) && sessionIndex == old(sessionIndex)
    {
      if confirmed {
        submissions := Splice(submissions, index, 1, []).result;
      }
    }
  }

  /** The loop of `submitClientForm`: fills the record field by field and
      stops at the first required field that is not filled in, with the
      alert naming it. */
  method FillRecord(fields: seq<Field>, controls: seq<ClientApp.Control>, stamp: string)
    returns (alert: Option<string>, submission: Record)
    ensures match ClientApp.FirstFailure(fields, ControlsFor(controls, |fields|), |fields|)
      case Some(k) => alert == Some(ClientApp.AlertFor(fields[k]))
      case None => alert.None? && submission == RecordUpTo(fields, controls, |fields|, stamp)
  {
    ghost var cs := ControlsFor(controls, |fields|);
    submission := map["_submittedAt" := Json.Str(stamp), "_notes" := Json.Str("")];
    var i := 0;
    while i < |fields|
      invariant 0 <= i <= |fields|
      invariant ClientApp.NoneFails(fields, cs, i)
      invariant submission == RecordUpTo(fields, controls, i, stamp)
    {
      var field := fields[i];
      var el := ControlAt(controls, i);
      RecordStep(fields, controls, i, stamp);
      if el.Control? {
        if field.kind == "file" {
          if field.required && |el.files| == 0 {
            assert cs[i] == el && ClientApp.Fails(field, el);
            FailureAt(fields, cs, i);
            return Some("Please upload photos for: " + field.labelText), submission;
          }
          var photos := Json.Array(seq(|el.files|, j requires 0 <= j < |el.files| => Json.Str(el.files[j])));
          assert Entry(field, el) == Some(photos);
          submission := Json.Assign(submission, field.labelText, photos);
        } else if field.kind == "checkbox" {
          assert Entry(field, el) == Some(Json.Bool(el.checked));
          submission := Json.Assign(submission, field.labelText, Json.Bool(el.checked));
        } else {
          var val := Trim(el.value);
          if field.required && val == [] {
            assert cs[i] == el && ClientApp.Fails(field, el);
            FailureAt(fields, cs, i);
            return Some("Please fill in: " + field.labelText), submission;
          }
          assert Entry(field, el) == Some(Json.Str(val));
          submission := Json.Assign(submission, field.labelText, Json.Str(val));
        }
      }
      NoFailureStep(fields, cs, i);
      i := i + 1;
    }
    return None, submission;
  }

  lemma FailureAt(fields: seq<Field>, cs: seq<ClientApp.Control>, i: nat)
    requires |cs| == |fields| && i < |fields|
    requires ClientApp.NoneFails(fields, cs, i) && ClientApp.Fails(fields[i], cs[i])
    ensures ClientApp.FirstFailure(fields, cs, |fields|) == Some(i)
    ensures ClientApp.AlertFor(fields[i]) == (if fields[i].kind == "file" then "Please upload photos for: " else "Please fill in: ") + fields[i].labelText
  {
    ClientApp.FirstFailureStable(fields, cs, i + 1, |fields|);
  }

  lemma RecordStep(fields: seq<Field>, controls: seq<ClientApp.Control>, i: nat, stamp: string)
    requires i < |fields|
    ensures var e := Entry(fields[i], ControlAt(controls, i));
      RecordUpTo(fields, controls, i + 1, stamp) ==
        if e.Some? then Json.Assign(RecordUpTo(fields, controls, i, stamp), fields[i].labelText, e.value)
        else RecordUpTo(fields, controls, i, stamp)
  {
  }

  lemma NoFailureStep(fields: seq<Field>, cs: seq<ClientApp.Control>, i: nat)
    requires |cs| == |fields| && i < |fields|
    requires ClientApp.NoneFails(fields, cs, i) && !ClientApp.Fails(fields[i], cs[i])
    ensures ClientApp.NoneFails(fields, cs, i + 1)
  {
  }
}
