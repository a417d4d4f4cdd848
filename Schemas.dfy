/** Schema.load for the schemas of this application: every declared field is a required
    `Str`, and unknown keys are dropped (`unknown = EXCLUDE`). Error messages are those of
    the schema library, keyed by field. */
module Schemas {
  import opened Wrappers
  import opened Http

  const MissingMessage: string := "Missing data for required field."
  const NullMessage: string := "Field may not be null."
  const NotStringMessage: string := "Not a valid string."
  const InvalidInputMessage: string := "Invalid input type."

  /** The complaint about one declared field, if it has one. */
  function FieldError(input: map<string, Json>, name: string): Option<string> {
    if name !in input then Some(MissingMessage)
    else match input[name]
      case JNull => Some(NullMessage)
      case JStr(_) => None
      case _ => Some(NotStringMessage)
  }

  /** The error messages of a load, one list per field that failed. */
  function FieldErrors(input: map<string, Json>, fields: set<string>): (m: map<string, Json>)
    ensures m.Keys == set f | f in fields && FieldError(input, f).Some?
  {
    map f | f in fields && FieldError(input, f).Some? :: JList([JStr(FieldError(input, f).value)])
  }

  /** The body the schema library rejects outright: anything but an object. */
  const InvalidInputErrors: Json := JObj(map["_schema" := JList([JStr(InvalidInputMessage)])])

  /** Schema.load(input). */
  function LoadStrings(input: Json, fields: set<string>): (r: Result<map<string, string>, Json>)
    ensures r.Success? <==> input.JObj? && forall f :: f in fields ==> f in input.fields && input.fields[f].JStr?
    ensures r.Success? ==> r.value.Keys == fields
    ensures r.Success? ==> forall f :: f in fields ==> input.fields[f] == JStr(r.value[f])
    ensures !input.JObj? ==> r == Failure(InvalidInputErrors)
    ensures input.JObj? && r.Failure? ==> r.error == JObj(FieldErrors(input.fields, fields))
  {
    if !input.JObj? then Failure(InvalidInputErrors)
    else
      var errors := FieldErrors(input.fields, fields);
      assert forall f :: f in fields && FieldError(input.fields, f).Some? ==> f in errors;
      if errors == map[] then
        Success(map f | f in fields :: input.fields[f].s)
      else
        assert exists f :: f in fields && FieldError(input.fields, f).Some?  by {
          var f :| f in errors;
        }
        Failure(JObj(errors))
  }

  /** A dictionary of strings as a JSON object. */
  function StringsToJson(data: map<string, string>): Json {
    JObj(map k | k in data :: JStr(data[k]))
  }

  /** Loading what a load produced gives it back. */
  lemma ReloadIsIdentity(data: map<string, string>, fields: set<string>)
    requires data.Keys == fields
    ensures LoadStrings(StringsToJson(data), fields) == Success(data)
  {
    var r := LoadStrings(StringsToJson(data), fields);
    assert r.Success?;
    assert r.value == data;
  }

  /** Keys the schema does not declare make no difference to a load. */
  lemma UnknownKeysIgnored(input: map<string, Json>, fields: set<string>)
    ensures LoadStrings(JObj(input), fields)
            == LoadStrings(JObj(map k | k in input && k in fields :: input[k]), fields)
  {
    var restricted := map k | k in input && k in fields :: input[k];
    assert forall f :: f in fields ==> FieldError(input, f) == FieldError(restricted, f);
    assert FieldErrors(input, fields) == FieldErrors(restricted, fields);
    var a := LoadStrings(JObj(input), fields);
    var b := LoadStrings(JObj(restricted), fields);
    if a.Success? {
      assert b.Success?;
      assert a.value == b.value;
    }
  }

  /** A missing field is reported as missing. */
  lemma MissingFieldReported(input: map<string, Json>, fields: set<string>, f: string)
    requires f in fields && f !in input
    ensures LoadStrings(JObj(input), fields) == Failure(JObj(FieldErrors(input, fields)))
    ensures FieldErrors(input, fields)[f] == JList([JStr(MissingMessage)])
  {
  }
}
