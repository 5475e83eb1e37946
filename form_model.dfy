/** The Form record: a name, an ordered list of field definitions and a
    creation time, with the checks and defaults its schema declares. */
module FormModel {
  import opened Common

  /** One field definition. `kind` is the field's `type` string. */
  datatype Field = Field(labelText: string, kind: string, required: bool)

  datatype Form = Form(name: string, fields: seq<Field>, createdAt: nat)

  /** A field definition as a request body carries it: any attribute may be
      absent. */
  datatype FieldInput = FieldInput(labelText: Option<string>, kind: Option<string>, required: Option<bool>)

  /** The six kinds of field the client renders. The schema keeps them in a
      comment only and accepts any string. */
  const KnownKinds: set<string> := {"text", "textarea", "number", "checkbox", "date", "file"}

  /** Mongoose's `required` on a `String` path: the value must be present
      and must not be the empty string. */
  predicate RequiredString(v: Option<string>) {
    v.Some? && v.value != ""
  }

  /** A field input passes the schema's validators. */
  predicate ValidFieldInput(f: FieldInput) {
    RequiredString(f.labelText) && RequiredString(f.kind)
  }

  /** A stored form whose record satisfies the schema. */
  predicate ValidForm(f: Form) {
    f.name != "" && forall i :: 0 <= i < |f.fields| ==> f.fields[i].labelText != "" && f.fields[i].kind != ""
  }

  /** Casting a field input to a field sub-document: `required` defaults to
      false; an absent label or type is held as the empty string. */
  function CastField(f: FieldInput): (r: Field)
    ensures f.labelText.Some? ==> r.labelText == f.labelText.value
    ensures f.kind.Some? ==> r.kind == f.kind.value
    ensures r.required <==> f.required == Some(true)
  {
    Field(f.labelText.GetOr(""), f.kind.GetOr(""), f.required.GetOr(false))
  }

  function CastFields(fs: seq<FieldInput>): (r: seq<Field>)
    ensures |r| == |fs|
    ensures forall i :: 0 <= i < |fs| ==> r[i] == CastField(fs[i])
  {
    seq(|fs|, i requires 0 <= i < |fs| => CastField(fs[i]))
  }

  /** `new Form({ name, fields })` followed by validation on save: `None`
      when validation fails. `fields` defaults to the empty list and is kept
      in the order given; `createdAt` is `now`. */
  function NewForm(name: Option<string>, fields: Option<seq<FieldInput>>, now: nat): (r: Option<Form>)
    ensures r.Some? <==> (RequiredString(name)
      && (fields.Some? ==> forall i :: 0 <= i < |fields.value| ==> ValidFieldInput(fields.value[i])))
    ensures r.Some? ==> (r.value.name == name.value && r.value.createdAt == now
      && r.value.fields == CastFields(fields.GetOr([])))
  {
    var fs := fields.GetOr([]);
    if RequiredString(name) && forall i :: 0 <= i < |fs| ==> ValidFieldInput(fs[i])
    then Some(Form(name.value, CastFields(fs), now))
    else None
  }

  /** Every form that passes creation satisfies the schema, each field
      keeps its label and type, and an absent `required` flag is false. */
  lemma NewFormValid(name: Option<string>, fields: Option<seq<FieldInput>>, now: nat)
    requires NewForm(name, fields, now).Some?
    ensures ValidForm(NewForm(name, fields, now).value)
    ensures var f := NewForm(name, fields, now).value;
      forall i :: 0 <= i < |f.fields| ==>
        Some(f.fields[i].labelText) == fields.value[i].labelText
        && Some(f.fields[i].kind) == fields.value[i].kind
        && (fields.value[i].required.None? ==> !f.fields[i].required)
  {
    var f := NewForm(name, fields, now).value;
    var fs := fields.GetOr([]);
    forall i | 0 <= i < |f.fields|
      ensures f.fields[i].labelText != "" && f.fields[i].kind != ""
    {
      assert ValidFieldInput(fs[i]);
    }
  }

  /** The kinds are not enforced: a field whose type is any non-empty
      string outside the six kinds is accepted and stored with that type. */
  lemma UnknownKindAccepted(name: string, labelText: string, kind: string, now: nat)
    requires name != "" && labelText != "" && kind != "" && kind !in KnownKinds
    ensures var f := NewForm(Some(name), Some([FieldInput(Some(labelText), Some(kind), None)]), now);
      f.Some? && f.value.fields == [Field(labelText, kind, false)]
  {
    var fs := [FieldInput(Some(labelText), Some(kind), None)];
    assert ValidFieldInput(fs[0]);
  }
}
