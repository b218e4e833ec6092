/** controllers/inquiryController.js: inquiries from a signed-in user
    about a listing. The inquiry copies who asked from the requester and
    whom to ask from the listing's agent at the time of asking. */
module InquiryController {
  import opened Common
  import opened Seqs
  import opened Text
  import opened Schema
  import opened PropertySchema
  import opened InquirySchema
  import UserSchema
  import Email
  import Js
  import PropertyController

  function InquiryCreatedAt(q: Inquiry): int { q.createdAt }

  ghost predicate InquiriesInvariant(qs: seq<Inquiry>, clock: nat) {
    && StrictlyIncreasing(qs, InquiryCreatedAt)
    && (forall q :: q in qs ==> q.createdAt < clock && InquirySchema.WellFormed(q))
  }

  /** The fields of POST /api/inquiries the handler reads. */
  datatype InquiryRequest = InquiryRequest(
    propertyId: Option<Id>,
    message: Option<string>,
    phone: Option<string>)

  /** JavaScript's `phone || req.user.phone` on two optional strings. */
  function PhoneOr(phone: Option<string>, fallback: Option<string>): (r: Option<string>)
    ensures phone.Some? && phone.value != "" ==> r == phone
    ensures !(phone.Some? && phone.value != "") ==> r == fallback
    ensures (r.Some? && Js.Truthy(Js.Str(r.value))) <==>
      (phone.Some? && Js.Truthy(Js.Str(phone.value))) || (fallback.Some? && Js.Truthy(Js.Str(fallback.value)))
  {
    if phone.Some? && phone.value != "" then phone else fallback
  }

  /** The document handed to `Inquiry.create`. */
  function InquiryDocument(requester: UserSchema.UserView, listing: Property, request: InquiryRequest): (d: InquiryBody)
    requires request.propertyId.Some?
    ensures d.name == Some(requester.name) && d.email == Some(requester.email)
    ensures d.phone == PhoneOr(request.phone, requester.phone) && d.message == request.message
    ensures d.property == request.propertyId && d.agent == Some(listing.agent) && d.status.None?
  {
    InquiryBody(
      name := Some(requester.name),
      email := Some(requester.email),
      phone := PhoneOr(request.phone, requester.phone),
      message := request.message,
      property := request.propertyId,
      agent := Some(listing.agent),
      status := None)
  }

  /** A requester read from the users collection passes every inquiry
      rule it supplies, so only the message can be refused. */
  lemma {:induction false} OnlyTheMessageCanFail(u: UserSchema.User, listing: Property, request: InquiryRequest, id: Id, createdAt: nat)
    requires UserSchema.WellFormed(u) && request.propertyId.Some?
    ensures var r := InquirySchema.Create(InquiryDocument(UserSchema.View(u), listing, request), id, createdAt);
      r.Ok? <==> request.message.Some? && request.message.value != ""
    ensures var r := InquirySchema.Create(InquiryDocument(UserSchema.View(u), listing, request), id, createdAt);
      r.Ok? ==> r.value.name == u.name && r.value.email == u.email && r.value.status == New
  {
    var d := InquiryDocument(UserSchema.View(u), listing, request);
    assert d.name == Some(u.name) && d.email == Some(u.email);
    assert Trim(u.name) == u.name by { TrimIdempotent(u.name); }
    assert Email.MatchesPattern(u.email);
    assert InquirySchema.Acceptable(d) <==> request.message.Some? && request.message.value != "";
    var r := InquirySchema.Create(d, id, createdAt);
    if r.Ok? {
      assert StatusName(r.value.status) == "new";
    }
  }

  lemma {:induction false} AppendKeepsInvariant(qs: seq<Inquiry>, clock: nat, q: Inquiry)
    requires InquiriesInvariant(qs, clock)
    requires q.createdAt == clock && InquirySchema.WellFormed(q)
    ensures InquiriesInvariant(qs + [q], clock + 1)
  {
    var u := qs + [q];
    forall i, j | 0 <= i < j < |u| ensures InquiryCreatedAt(u[i]) < InquiryCreatedAt(u[j]) {
      assert u[i] == qs[i] && qs[i] in qs;
      if j < |qs| { assert u[j] == qs[j]; }
    }
  }

  class InquiryStore {
    var inquiries: seq<Inquiry>
    var clock: nat

    ghost predicate Valid()
      reads this
    {
      InquiriesInvariant(inquiries, clock)
    }

    constructor()
      ensures Valid() && inquiries == [] && clock == 0
    {
      inquiries := [];
      clock := 0;
    }

    /** POST /api/inquiries */
    method Create(properties: seq<Property>, requester: UserSchema.UserView, request: InquiryRequest)
      returns (reply: Reply<Inquiry>)
      requires Valid()
      modifies this
      ensures Valid()
      ensures request.propertyId.None? || PropertyController.FindById(properties, request.propertyId.value).None? ==>
        reply == Error(NotFound) && inquiries == old(inquiries) && clock == old(clock)
      ensures request.propertyId.Some? && PropertyController.FindById(properties, request.propertyId.value).Some? ==>
        var listing := PropertyController.FindById(properties, request.propertyId.value).value;
        var r := InquirySchema.Create(InquiryDocument(requester, listing, request), old(clock), old(clock));
        && (r.Invalid? ==> reply == Error(ValidationFailed(r.violations))
                           && inquiries == old(inquiries) && clock == old(clock))
        && (r.Ok? ==> reply == Success(201, r.value)
                      && inquiries == old(inquiries) + [r.value] && clock == old(clock) + 1)
      ensures reply.Success? ==>
        var listing := PropertyController.FindById(properties, request.propertyId.value).value;
        && reply.data.property == request.propertyId.value
        && reply.data.agent == listing.agent
        && reply.data.name == Trim(requester.name)
        && reply.data.email == requester.email
        && reply.data.phone == TrimOpt(PhoneOr(request.phone, requester.phone))
        && reply.data.status == New
    {
      if request.propertyId.None? {
        reply := Error(NotFound);
        return;
      }
      var found := PropertyController.FindById(properties, request.propertyId.value);
      if found.None? {
        reply := Error(NotFound);
        return;
      }
      var r := InquirySchema.Create(InquiryDocument(requester, found.value, request), clock, clock);
      if r.Invalid? {
        reply := Error(ValidationFailed(r.violations));
      } else {
        AppendKeepsInvariant(inquiries, clock, r.value);
        inquiries := inquiries + [r.value];
        clock := clock + 1;
        reply := Success(201, r.value);
      }
    }
  }

  /** GET /api/inquiries/agent (agents only): the inquiries addressed to
      the requester, newest first. */
  function AgentInquiries(qs: seq<Inquiry>, requester: UserSchema.UserView): (r: seq<Inquiry>)
    requires requester.role == UserSchema.Agent
    ensures forall q :: q in r <==> q in qs && q.agent == requester.id
  {
    ReverseMembers(Filter(qs, (q: Inquiry) => q.agent == requester.id));
    Reverse(Filter(qs, (q: Inquiry) => q.agent == requester.id))
  }

  /** GET /api/inquiries/user: the inquiries sent under the requester's
      address, newest first. */
  function UserInquiries(qs: seq<Inquiry>, requester: UserSchema.UserView): (r: seq<Inquiry>)
    ensures forall q :: q in r <==> q in qs && q.email == requester.email
  {
    ReverseMembers(Filter(qs, (q: Inquiry) => q.email == requester.email));
    Reverse(Filter(qs, (q: Inquiry) => q.email == requester.email))
  }

  lemma {:induction false} AgentInquiriesNewestFirst(qs: seq<Inquiry>, requester: UserSchema.UserView)
    requires StrictlyIncreasing(qs, InquiryCreatedAt) && requester.role == UserSchema.Agent
    ensures StrictlyDecreasing(AgentInquiries(qs, requester), InquiryCreatedAt)
  {
    FilterKeepsIncreasing(qs, (q: Inquiry) => q.agent == requester.id, InquiryCreatedAt);
    ReverseTurnsIncreasingToDecreasing(Filter(qs, (q: Inquiry) => q.agent == requester.id), InquiryCreatedAt);
  }

  lemma {:induction false} UserInquiriesNewestFirst(qs: seq<Inquiry>, requester: UserSchema.UserView)
    requires StrictlyIncreasing(qs, InquiryCreatedAt)
    ensures StrictlyDecreasing(UserInquiries(qs, requester), InquiryCreatedAt)
  {
    FilterKeepsIncreasing(qs, (q: Inquiry) => q.email == requester.email, InquiryCreatedAt);
    ReverseTurnsIncreasingToDecreasing(Filter(qs, (q: Inquiry) => q.email == requester.email), InquiryCreatedAt);
  }
}
