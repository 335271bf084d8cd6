/**
 * The consumer side of the pipeline: validating and reshaping one raw user
 * record into the canonical envelope, and the save-or-skip decision taken for
 * each message that arrives from the queue.
 */
module Transformer {
  import opened Wrappers
  import opened Json
  import opened Text

  /** The keys every raw record must carry with a non-null value, in the order they are checked. */
  const RequiredFields: seq<string> :=
    ["gender", "name", "location", "email", "dob", "registered", "phone", "cell", "id"]

  /** The required keys whose values are copied to the output unchanged. */
  const CopiedFields: seq<string> :=
    ["gender", "name", "email", "dob", "registered", "phone", "cell", "id"]

  /** The sub-keys of `location` that survive the reshaping. */
  const LocationFields: seq<string> := ["city", "state", "country", "postcode"]

  /** Why a record was turned away (the message the transformer logs). */
  datatype Rejection =
    | NotAnObject            // the decoded message is not a JSON object
    | MissingField(field: string)
    | InvalidGender
    | ExtractedNotObject     // `extracted` is present but `.get` cannot be called on it
    | LocationNotObject      // `location` is present but `.get` cannot be called on it

  /** Presence as the validation loop sees it: the key exists and its value is not null. */
  predicate Present(fields: map<string, Value>, key: string)
  {
    key in fields && fields[key] != Null
  }

  predicate ValidGender(v: Value)
  {
    v == Str("male") || v == Str("female")
  }

  /** The first of `keys` that is not present, scanning left to right. */
  function FirstMissing(keys: seq<string>, fields: map<string, Value>): (r: Option<string>)
    ensures r.None? <==> forall k :: k in keys ==> Present(fields, k)
    ensures r.Some? ==> r.value in keys && !Present(fields, r.value)
  {
    if keys == [] then None
    else if !Present(fields, keys[0]) then Some(keys[0])
    else FirstMissing(keys[1..], fields)
  }

  /** The key reported is the earliest absent one: all keys before it are present. */
  lemma {:induction false} FirstMissingAt(keys: seq<string>, fields: map<string, Value>, k: nat)
    requires k < |keys| && !Present(fields, keys[k])
    requires forall j :: 0 <= j < k ==> Present(fields, keys[j])
    ensures FirstMissing(keys, fields) == Some(keys[k])
  {
    if k > 0 {
      FirstMissingAt(keys[1..], fields, k - 1);
    }
  }

  /**
   * `user.get("extracted", {}).get("date", now)`: `None` when `extracted`
   * is present but is not an object (the second `.get` raises).
   */
  function ExtractedDate(fields: map<string, Value>, now: string): Option<Value>
  {
    if "extracted" !in fields then Some(Str(now))
    else match fields["extracted"]
      case Obj(e) => Some(if "date" in e then e["date"] else Str(now))
      case _ => None
  }

  /** The reshaped location: exactly the four kept sub-keys, null where absent. */
  function ReshapedLocation(loc: map<string, Value>): Value
  {
    Obj(map["city" := Get(loc, "city"), "state" := Get(loc, "state"),
            "country" := Get(loc, "country"), "postcode" := Get(loc, "postcode")])
  }

  /** The canonical record built from a validated input. */
  function Canonical(fields: map<string, Value>, loc: map<string, Value>, date: Value): Value
    requires forall k :: k in RequiredFields ==> k in fields
  {
    Obj(map[
      "gender" := fields["gender"],
      "name" := fields["name"],
      "location" := ReshapedLocation(loc),
      "email" := fields["email"],
      "dob" := fields["dob"],
      "registered" := fields["registered"],
      "phone" := fields["phone"],
      "cell" := fields["cell"],
      "id" := fields["id"],
      "extracted" := Obj(map["date" := date])])
  }

  /** The canonical envelope: an object whose only key `results` holds a one-element list. */
  predicate IsEnvelope(v: Value)
  {
    v.Obj? && v.fields.Keys == {"results"} && v.fields["results"].Arr?
    && |v.fields["results"].items| == 1
  }

  /** The record inside an envelope. */
  function Record(v: Value): Value
    requires IsEnvelope(v)
  {
    v.fields["results"].items[0]
  }

  /**
   * When `transform_user` returns a result: an object with every required key
   * non-null, a valid gender, an object `location`, and `extracted` (if any) an object.
   */
  predicate Accepts(user: Value)
  {
    && user.Obj?
    && (forall k :: k in RequiredFields ==> Present(user.fields, k))
    && ValidGender(Get(user.fields, "gender"))
    && ("extracted" in user.fields ==> user.fields["extracted"].Obj?)
    && Get(user.fields, "location").Obj?
  }

  /**
   * `transform_user` with the reason of a rejection kept: the presence loop,
   * then the gender check, then `extracted.date`, then the reshaping.
   */
  function Transform(user: Value, now: string): (r: Result<Value, Rejection>)
    ensures r.Success? <==> Accepts(user)
    ensures r.Success? ==> IsEnvelope(r.value)
  {
    if !user.Obj? then Failure(NotAnObject)
    else
      var fields := user.fields;
      match FirstMissing(RequiredFields, fields)
      case Some(key) => Failure(MissingField(key))
      case None =>
        assert "gender" in RequiredFields && "location" in RequiredFields;
        if !ValidGender(fields["gender"]) then Failure(InvalidGender)
        else match ExtractedDate(fields, now)
          case None => Failure(ExtractedNotObject)
          case Some(date) =>
            if !fields["location"].Obj? then Failure(LocationNotObject)
            else Success(Obj(map["results" := Arr([Canonical(fields, fields["location"].fields, date)])]))
  }

  /** `transform_user(user)`: the envelope, or `None` for any rejection. */
  function TransformUser(user: Value, now: string): (r: Option<Value>)
    ensures r.Some? <==> Accepts(user)
  {
    Transform(user, now).ToOption()
  }

  /** A record lacking a required key (or holding null there) is rejected, naming the first such key. */
  lemma MissingFieldReported(user: Value, now: string, k: nat)
    requires user.Obj? && k < |RequiredFields|
    requires !Present(user.fields, RequiredFields[k])
    requires forall j :: 0 <= j < k ==> Present(user.fields, RequiredFields[j])
    ensures Transform(user, now) == Failure(MissingField(RequiredFields[k]))
    ensures TransformUser(user, now) == None
  {
    FirstMissingAt(RequiredFields, user.fields, k);
  }

  /**
   * Only null counts as missing: in an accepted record, replacing the value
   * of name, email, dob, registered, phone, cell or id by any non-null value,
   * empty string, list or object included, leaves the record accepted.
   */
  lemma EmptyValuesPass(user: Value, now: string, key: string, v: Value)
    requires TransformUser(user, now).Some?
    requires key in CopiedFields && key != "gender" && v != Null
    ensures TransformUser(Obj(user.fields[key := v]), now).Some?
  {
    var fields := user.fields[key := v];
    forall k | k in RequiredFields
      ensures Present(fields, k)
    {
      assert Present(user.fields, k);
    }
  }

  /** With every key present, a gender other than "male" or "female" rejects the record. */
  lemma GenderCheckedAfterPresence(user: Value, now: string)
    requires user.Obj?
    requires forall k :: k in RequiredFields ==> Present(user.fields, k)
    requires "gender" in user.fields && !ValidGender(user.fields["gender"])
    ensures Transform(user, now) == Failure(InvalidGender)
  {
  }

  /** On success the record carries exactly the canonical keys, the copied ones verbatim. */
  lemma CopiesFieldsVerbatim(user: Value, now: string)
    requires TransformUser(user, now).Some?
    ensures var rec := Record(TransformUser(user, now).value);
      && rec.Obj?
      && rec.fields.Keys == {"gender", "name", "location", "email", "dob", "registered",
                             "phone", "cell", "id", "extracted"}
      && forall k :: k in CopiedFields ==> k in user.fields && rec.fields[k] == user.fields[k]
  {
    var fields := user.fields;
    assert "location" in RequiredFields;
    var rec := Canonical(fields, fields["location"].fields, ExtractedDate(fields, now).value);
    assert Record(TransformUser(user, now).value) == rec;
    CanonicalCopies(fields, fields["location"].fields, ExtractedDate(fields, now).value);
  }

  /** The canonical record has the ten canonical keys and copies the eight verbatim ones. */
  lemma CanonicalCopies(fields: map<string, Value>, loc: map<string, Value>, date: Value)
    requires forall k :: k in RequiredFields ==> k in fields
    ensures var rec := Canonical(fields, loc, date);
      && rec.fields.Keys == {"gender", "name", "location", "email", "dob", "registered",
                             "phone", "cell", "id", "extracted"}
      && forall k :: k in CopiedFields ==> k in fields && rec.fields[k] == fields[k]
  {
    forall k | k in CopiedFields
      ensures k in fields
    {
      assert k in RequiredFields;
    }
  }

  /**
   * On success `location` is reshaped to exactly city, state, country and
   * postcode, each the input's value or null; a non-object `location` rejects.
   */
  lemma LocationProjected(user: Value, now: string)
    requires user.Obj? && "location" in user.fields
    ensures !user.fields["location"].Obj? ==> TransformUser(user, now).None?
    ensures TransformUser(user, now).Some? ==>
      var loc := Record(TransformUser(user, now).value).fields["location"];
      && loc.Obj?
      && loc.fields.Keys == {"city", "state", "country", "postcode"}
      && forall k :: k in LocationFields ==> loc.fields[k] == Get(user.fields["location"].fields, k)
  {
  }

  /**
   * On success `extracted.date` is the input's `extracted.date` when that key
   * exists (even if null) and `now` otherwise; a non-object `extracted` rejects.
   */
  lemma ExtractedDateKept(user: Value, now: string)
    requires user.Obj?
    ensures "extracted" in user.fields && !user.fields["extracted"].Obj? ==> TransformUser(user, now).None?
    ensures TransformUser(user, now).Some? ==>
      var ext := Record(TransformUser(user, now).value).fields["extracted"];
      && ext == Obj(map["date" := ext.fields["date"]])
      && ext.fields["date"] ==
           if "extracted" in user.fields && "date" in user.fields["extracted"].fields
           then user.fields["extracted"].fields["date"]
           else Str(now)
  {
  }

  /** What the consumer receives: a body that does or does not decode as JSON. */
  datatype Body = Undecodable | Decoded(value: Value)

  /** What `callback` does with one message. */
  datatype Action =
    | Save(envelope: Value)   // hand the envelope to `save_user`
    | SkipInvalid             // "Skipped invalid user record."
    | CallbackError           // the body did not decode; the exception is caught and logged

  /** Python truthiness of `transform_user`'s return value. */
  predicate OptionTruthy(t: Option<Value>)
  {
    t.Some? && Truthy(t.value)
  }

  /**
   * `callback`: decode, transform, and save when the result is truthy.
   * A message is saved exactly when it decodes and the transformer accepts it.
   */
  function Callback(body: Body, now: string): (a: Action)
    ensures a.Save? <==> body.Decoded? && TransformUser(body.value, now).Some?
    ensures a.Save? ==> a.envelope == TransformUser(body.value, now).value && IsEnvelope(a.envelope)
    ensures a == CallbackError <==> body.Undecodable?
  {
    match body
    case Undecodable => CallbackError
    case Decoded(user) =>
      var t := TransformUser(user, now);
      if OptionTruthy(t) then Save(t.value) else SkipInvalid
  }

  /** The name `save_user` gives a record, from the UTC timestamp digits of the write. */
  function SaveFileName(timestamp: string): (name: string)
    ensures EndsWith(name, ".json")
  {
    EndsWithAppend("user_" + timestamp, ".json");
    "user_" + timestamp + ".json"
  }
}
