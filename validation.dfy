/** middleware/validation.js: the `validateProperty` guard, which checks
    seven body fields with JavaScript truthiness before handing the
    request on. */
module Validation {
  import opened Js

  /** The seven fields the guard tests, in the order it tests them. */
  const RequiredFields: seq<string> :=
    ["title", "description", "price", "location", "bedrooms", "bathrooms", "area"]

  /** Either the guard answers the request itself, or it calls `next()`. */
  datatype Outcome = Next | Respond(status: nat, success: bool, message: string)

  function ValidateProperty(body: map<string, Value>): (r: Outcome)
    ensures r.Next? <==> forall i :: 0 <= i < |RequiredFields| ==> Truthy(Get(body, RequiredFields[i]))
    ensures r.Respond? ==> r.status == 400 && !r.success
  {
    RequiredFieldsAt();
    if || !Truthy(Get(body, "title")) || !Truthy(Get(body, "description"))
       || !Truthy(Get(body, "price")) || !Truthy(Get(body, "location"))
       || !Truthy(Get(body, "bedrooms")) || !Truthy(Get(body, "bathrooms"))
       || !Truthy(Get(body, "area"))
    then Respond(400, false, "Please provide all required fields")
    else Next
  }

  lemma RequiredFieldsAt()
    ensures |RequiredFields| == 7
    ensures && RequiredFields[0] == "title" && RequiredFields[1] == "description"
            && RequiredFields[2] == "price" && RequiredFields[3] == "location"
            && RequiredFields[4] == "bedrooms" && RequiredFields[5] == "bathrooms"
            && RequiredFields[6] == "area"
  {
  }

  /** A numeric 0 in any of the seven fields is refused, though the
      schema accepts 0 bedrooms, bathrooms or area. */
  lemma RejectsZero(body: map<string, Value>, f: string)
    requires f in RequiredFields && Get(body, f) == Num(0)
    ensures ValidateProperty(body) == Respond(400, false, "Please provide all required fields")
  {
  }

  /** So is an empty string, and so is a missing field. */
  lemma RejectsEmptyOrMissing(body: map<string, Value>, f: string)
    requires f in RequiredFields && (f !in body || body[f] == Str(""))
    ensures ValidateProperty(body).Respond?
  {
  }
}
