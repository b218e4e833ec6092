/** models/inquiry.js: an inquiry a renter sends about a listing. `name`
    and `phone` are trimmed; `email` must match the address pattern;
    `status` is an enum that starts at "new". */
module InquirySchema {
  import opened Common
  import opened Text
  import opened Schema
  import Email

  datatype Status = New | Contacted | ViewingScheduled | Closed

  function StatusName(s: Status): string {
    match s
    case New => "new"
    case Contacted => "contacted"
    case ViewingScheduled => "viewing_scheduled"
    case Closed => "closed"
  }

  const StatusNames: set<string> := {"new", "contacted", "viewing_scheduled", "closed"}

  /** The `enum` check: the status a string names, if any. */
  function ParseStatus(s: string): (r: Option<Status>)
    ensures r.Some? <==> s in StatusNames
    ensures r.Some? ==> StatusName(r.value) == s
  {
    if s == "new" then Some(New)
    else if s == "contacted" then Some(Contacted)
    else if s == "viewing_scheduled" then Some(ViewingScheduled)
    else if s == "closed" then Some(Closed)
    else None
  }

  lemma ParseStatusName(s: Status)
    ensures ParseStatus(StatusName(s)) == Some(s)
  {
  }

  const DefaultStatus := New

  datatype Inquiry = Inquiry(
    id: Id,
    name: string,
    email: string,
    phone: Option<string>,
    message: string,
    property: Id,
    agent: Id,
    status: Status,
    createdAt: nat)

  /** The document passed to `Inquiry.create`. */
  datatype InquiryBody = InquiryBody(
    name: Option<string>,
    email: Option<string>,
    phone: Option<string>,
    message: Option<string>,
    property: Option<Id>,
    agent: Option<Id>,
    status: Option<string>)

  /** What the schema guarantees of every stored inquiry. */
  ghost predicate WellFormed(q: Inquiry) {
    && q.name != [] && Trimmed(q.name)
    && Email.MatchesPattern(q.email)
    && (q.phone.Some? ==> Trimmed(q.phone.value))
    && q.message != []
  }

  const Paths: set<string> := {"name", "email", "message", "property", "agent", "status"}

  /** The report names only the schema's paths. */
  function Violations(body: InquiryBody): (r: set<Violation>)
    ensures forall x :: x in r ==> x.path in Paths
  {
    At("name", StringRule(TrimOpt(body.name), true, 0, None))
    + At("email", EmailRule(body.email))
    + At("message", StringRule(body.message, true, 0, None))
    + At("property", PresenceRule(body.property, true))
    + At("agent", PresenceRule(body.agent, true))
    + At("status", EnumRule(body.status, StatusNames))
  }

  /** The schema's rules in plain terms. */
  ghost predicate Acceptable(body: InquiryBody) {
    && body.name.Some? && Trim(body.name.value) != ""
    && body.email.Some? && Email.MatchesPattern(body.email.value)
    && body.message.Some? && body.message.value != ""
    && body.property.Some? && body.agent.Some?
    && (body.status.None? || ParseStatus(body.status.value).Some?)
  }

  lemma ViolationsReference(body: InquiryBody)
    ensures Violations(body) == {} <==> Acceptable(body)
  {
    if body.email.Some? && Email.MatchesPattern(body.email.value) {
      Email.PatternNonEmpty(body.email.value);
    }
  }

  /** `Inquiry.create(body)`: setters and the status default, then the
      validators. */
  function Create(body: InquiryBody, id: Id, createdAt: nat): (r: Result<Inquiry>)
    ensures r.Ok? <==> Acceptable(body)
    ensures r.Invalid? ==> r.violations == Violations(body)
    ensures r.Ok? ==> WellFormed(r.value)
    ensures r.Ok? ==> && r.value.id == id && r.value.createdAt == createdAt
                      && r.value.name == Trim(body.name.value)
                      && r.value.email == body.email.value
                      && r.value.phone == TrimOpt(body.phone)
                      && r.value.message == body.message.value
                      && r.value.property == body.property.value
                      && r.value.agent == body.agent.value
                      && StatusName(r.value.status) == OrElse(body.status, StatusName(DefaultStatus))
  {
    ViolationsReference(body);
    var v := Violations(body);
    if v != {} then Invalid(v)
    else
      Ok(Inquiry(
        id := id,
        name := Trim(body.name.value),
        email := body.email.value,
        phone := TrimOpt(body.phone),
        message := body.message.value,
        property := body.property.value,
        agent := body.agent.value,
        status := if body.status.Some? then ParseStatus(body.status.value).value else DefaultStatus,
        createdAt := createdAt))
  }
}
