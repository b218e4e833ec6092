/** models/Property.js: the Property schema. `Violations` is what
    Mongoose's validators report for a body, path by path; `Create` is
    `Property.create` (setters, defaults, validation), `ApplyUpdate` is
    `findByIdAndUpdate` with `runValidators`, which checks only the paths
    the update sets. */
module PropertySchema {
  import opened Common
  import opened Text
  import opened Schema

  datatype Kind = Apartment | Studio | House | Condo

  function KindName(k: Kind): string {
    match k
    case Apartment => "apartment"
    case Studio => "studio"
    case House => "house"
    case Condo => "condo"
  }

  /** The `enum` check: the kind a string names, if any. */
  function ParseKind(s: string): (r: Option<Kind>)
    ensures r.Some? ==> KindName(r.value) == s
    ensures r.None? ==> forall k :: KindName(k) != s
  {
    if s == "apartment" then Some(Apartment)
    else if s == "studio" then Some(Studio)
    else if s == "house" then Some(House)
    else if s == "condo" then Some(Condo)
    else None
  }

  lemma ParseKindName(k: Kind)
    ensures ParseKind(KindName(k)) == Some(k)
  {
  }

  const TitleMaxLength: nat := 100
  const DescriptionMaxLength: nat := 1000
  const DefaultKind := Apartment
  const DefaultLeaseTerm := "12 months"

  /** A stored listing. `kind` is the schema's `type` path. */
  datatype Property = Property(
    id: Id,
    title: string,
    description: string,
    price: string,
    location: string,
    bedrooms: int,
    bathrooms: int,
    area: int,
    kind: Kind,
    amenities: seq<string>,
    images: seq<string>,
    leaseTerm: string,
    deposit: Option<string>,
    available: bool,
    featured: bool,
    agent: Id,
    createdAt: nat)

  /** A request body after casting to the schema's types: each path is
      either present or absent. */
  datatype PropertyBody = PropertyBody(
    title: Option<string>,
    description: Option<string>,
    price: Option<string>,
    location: Option<string>,
    bedrooms: Option<int>,
    bathrooms: Option<int>,
    area: Option<int>,
    kind: Option<string>,
    amenities: Option<seq<string>>,
    images: Option<seq<string>>,
    leaseTerm: Option<string>,
    deposit: Option<string>,
    available: Option<bool>,
    featured: Option<bool>,
    agent: Option<Id>)

  /** What the schema guarantees of every stored listing. */
  predicate WellFormed(p: Property) {
    && p.title != [] && Trimmed(p.title) && Utf16Length(p.title) <= TitleMaxLength
    && p.description != [] && Utf16Length(p.description) <= DescriptionMaxLength
    && p.price != [] && p.location != []
    && p.bedrooms >= 0 && p.bathrooms >= 0 && p.area >= 0
  }

  // ---------------------------------------------------------------
  // Validation

  const KindNames: set<string> := {"apartment", "studio", "house", "condo"}

  lemma KindNamesAreParsed(s: string)
    ensures s in KindNames <==> ParseKind(s).Some?
  {
  }

  const Paths: set<string> :=
    {"title", "description", "price", "location", "bedrooms", "bathrooms", "area", "type", "agent"}

  /** The report names only the schema's paths. */
  function Violations(body: PropertyBody, inserting: bool): (r: set<Violation>)
    ensures forall x :: x in r ==> x.path in Paths
  {
    At("title", StringRule(TrimOpt(body.title), inserting, 0, Some(TitleMaxLength)))
    + At("description", StringRule(body.description, inserting, 0, Some(DescriptionMaxLength)))
    + At("price", StringRule(body.price, inserting, 0, None))
    + At("location", StringRule(body.location, inserting, 0, None))
    + At("bedrooms", NumberRule(body.bedrooms, inserting, 0))
    + At("bathrooms", NumberRule(body.bathrooms, inserting, 0))
    + At("area", NumberRule(body.area, inserting, 0))
    + At("type", EnumRule(body.kind, KindNames))
    + At("agent", PresenceRule(body.agent, inserting))
  }

  /** Each value the body sets obeys its path's rules, and with
      `inserting` every required path is set. */
  predicate Acceptable(body: PropertyBody, inserting: bool) {
    && FitsString(TrimOpt(body.title), inserting, 0, Some(TitleMaxLength))
    && FitsString(body.description, inserting, 0, Some(DescriptionMaxLength))
    && FitsString(body.price, inserting, 0, None)
    && FitsString(body.location, inserting, 0, None)
    && (if body.bedrooms.Some? then body.bedrooms.value >= 0 else !inserting)
    && (if body.bathrooms.Some? then body.bathrooms.value >= 0 else !inserting)
    && (if body.area.Some? then body.area.value >= 0 else !inserting)
    && (body.kind.None? || ParseKind(body.kind.value).Some?)
    && (body.agent.Some? || !inserting)
  }

  /** The validators report nothing exactly when the body is acceptable. */
  lemma ViolationsReference(body: PropertyBody, inserting: bool)
    ensures Violations(body, inserting) == {} <==> Acceptable(body, inserting)
  {
    if body.kind.Some? { KindNamesAreParsed(body.kind.value); }
  }

  /** `maxlength` counts UTF-16 code units: sixty characters above U+FFFF
      are a title of length 120 and too long. */
  lemma AstralTitleTooLong(body: PropertyBody, inserting: bool)
    requires body.title == Some(seq(60, _ => '\U{1F3E0}'))
    ensures Violation("title", MaxLength(TitleMaxLength)) in Violations(body, inserting)
  {
    var t := body.title.value;
    AstralLength('\U{1F3E0}', 60);
    assert Trimmed(t);
    var rule := StringRule(TrimOpt(body.title), inserting, 0, Some(TitleMaxLength));
    assert rule == Some(MaxLength(TitleMaxLength));
    assert Violation("title", MaxLength(TitleMaxLength)) in At("title", rule);
  }

  // ---------------------------------------------------------------
  // Insert and update

  /** Each path the body sets holds the body's value (the title after
      trimming). */
  predicate Stores(body: PropertyBody, p: Property) {
    && (body.title.Some? ==> p.title == Trim(body.title.value))
    && (body.description.Some? ==> p.description == body.description.value)
    && (body.price.Some? ==> p.price == body.price.value)
    && (body.location.Some? ==> p.location == body.location.value)
    && (body.bedrooms.Some? ==> p.bedrooms == body.bedrooms.value)
    && (body.bathrooms.Some? ==> p.bathrooms == body.bathrooms.value)
    && (body.area.Some? ==> p.area == body.area.value)
    && (body.kind.Some? ==> KindName(p.kind) == body.kind.value)
    && (body.amenities.Some? ==> p.amenities == body.amenities.value)
    && (body.images.Some? ==> p.images == body.images.value)
    && (body.leaseTerm.Some? ==> p.leaseTerm == body.leaseTerm.value)
    && (body.deposit.Some? ==> p.deposit == body.deposit)
    && (body.available.Some? ==> p.available == body.available.value)
    && (body.featured.Some? ==> p.featured == body.featured.value)
    && (body.agent.Some? ==> p.agent == body.agent.value)
  }

  /** The paths the body leaves out hold their schema defaults. */
  predicate Defaulted(body: PropertyBody, p: Property) {
    && (body.kind.None? ==> p.kind == DefaultKind)
    && (body.amenities.None? ==> p.amenities == [])
    && (body.images.None? ==> p.images == [])
    && (body.leaseTerm.None? ==> p.leaseTerm == DefaultLeaseTerm)
    && (body.deposit.None? ==> p.deposit == None)
    && (body.available.None? ==> p.available)
    && (body.featured.None? ==> !p.featured)
  }

  /** The paths the body leaves out keep their values from `prev`. */
  predicate Keeps(body: PropertyBody, prev: Property, p: Property) {
    && (body.title.None? ==> p.title == prev.title)
    && (body.description.None? ==> p.description == prev.description)
    && (body.price.None? ==> p.price == prev.price)
    && (body.location.None? ==> p.location == prev.location)
    && (body.bedrooms.None? ==> p.bedrooms == prev.bedrooms)
    && (body.bathrooms.None? ==> p.bathrooms == prev.bathrooms)
    && (body.area.None? ==> p.area == prev.area)
    && (body.kind.None? ==> p.kind == prev.kind)
    && (body.amenities.None? ==> p.amenities == prev.amenities)
    && (body.images.None? ==> p.images == prev.images)
    && (body.leaseTerm.None? ==> p.leaseTerm == prev.leaseTerm)
    && (body.deposit.None? ==> p.deposit == prev.deposit)
    && (body.available.None? ==> p.available == prev.available)
    && (body.featured.None? ==> p.featured == prev.featured)
    && (body.agent.None? ==> p.agent == prev.agent)
  }

  function KindOrElse(v: Option<string>, default: Kind): Kind {
    if v.Some? && ParseKind(v.value).Some? then ParseKind(v.value).value else default
  }

  /** `Property.create(body)`: defaults, setters, then validation. */
  function Create(body: PropertyBody, id: Id, createdAt: nat): (r: Result<Property>)
    ensures r.Ok? <==> Violations(body, true) == {}
    ensures r.Invalid? ==> r.violations == Violations(body, true)
    ensures r.Ok? ==> && WellFormed(r.value) && Stores(body, r.value) && Defaulted(body, r.value)
                      && r.value.id == id && r.value.createdAt == createdAt
  {
    var v := Violations(body, true);
    if v != {} then Invalid(v)
    else
      ViolationsReference(body, true);
      Ok(Property(
        id := id,
        title := Trim(body.title.value),
        description := body.description.value,
        price := body.price.value,
        location := body.location.value,
        bedrooms := body.bedrooms.value,
        bathrooms := body.bathrooms.value,
        area := body.area.value,
        kind := KindOrElse(body.kind, DefaultKind),
        amenities := OrElse(body.amenities, []),
        images := OrElse(body.images, []),
        leaseTerm := OrElse(body.leaseTerm, DefaultLeaseTerm),
        deposit := body.deposit,
        available := OrElse(body.available, true),
        featured := OrElse(body.featured, false),
        agent := body.agent.value,
        createdAt := createdAt))
  }

  /** The listing `p` with every path the body sets overwritten (the
      title after trimming). */
  function Merge(p: Property, body: PropertyBody): (q: Property)
    requires body.kind.None? || ParseKind(body.kind.value).Some?
    ensures Stores(body, q) && Keeps(body, p, q)
    ensures q.id == p.id && q.createdAt == p.createdAt
  {
    Property(
      id := p.id,
      title := if body.title.Some? then Trim(body.title.value) else p.title,
      description := OrElse(body.description, p.description),
      price := OrElse(body.price, p.price),
      location := OrElse(body.location, p.location),
      bedrooms := OrElse(body.bedrooms, p.bedrooms),
      bathrooms := OrElse(body.bathrooms, p.bathrooms),
      area := OrElse(body.area, p.area),
      kind := KindOrElse(body.kind, p.kind),
      amenities := OrElse(body.amenities, p.amenities),
      images := OrElse(body.images, p.images),
      leaseTerm := OrElse(body.leaseTerm, p.leaseTerm),
      deposit := if body.deposit.Some? then body.deposit else p.deposit,
      available := OrElse(body.available, p.available),
      featured := OrElse(body.featured, p.featured),
      agent := OrElse(body.agent, p.agent),
      createdAt := p.createdAt)
  }

  /** `findByIdAndUpdate(id, body, { runValidators: true })` on the
      stored listing `p`: the set paths are validated, trimmed and
      written; the others, and the id and creation time, stay. */
  function ApplyUpdate(p: Property, body: PropertyBody): (r: Result<Property>)
    ensures r.Ok? <==> Violations(body, false) == {}
    ensures r.Invalid? ==> r.violations == Violations(body, false)
    ensures r.Ok? ==> && Stores(body, r.value) && Keeps(body, p, r.value)
                      && r.value.id == p.id && r.value.createdAt == p.createdAt
  {
    var v := Violations(body, false);
    if v != {} then Invalid(v)
    else
      ViolationsReference(body, false);
      Ok(Merge(p, body))
  }

  /** An accepted update of a well-formed listing leaves it well-formed. */
  lemma {:induction false} UpdateKeepsWellFormed(p: Property, body: PropertyBody)
    requires WellFormed(p) && ApplyUpdate(p, body).Ok?
    ensures WellFormed(ApplyUpdate(p, body).value)
  {
    var q := ApplyUpdate(p, body).value;
    assert Stores(body, q) && Keeps(body, p, q);
    ViolationsReference(body, false);
    assert Acceptable(body, false);
    assert q.title != [] && Trimmed(q.title) && Utf16Length(q.title) <= TitleMaxLength;
    assert q.description != [] && Utf16Length(q.description) <= DescriptionMaxLength;
    assert q.price != [] && q.location != [];
    assert q.bedrooms >= 0 && q.bathrooms >= 0 && q.area >= 0;
  }

  /** An update that sets nothing leaves the listing as it was. */
  lemma EmptyUpdateIsIdentity(p: Property)
    ensures ApplyUpdate(p, PropertyBody(None, None, None, None, None, None, None, None,
                                        None, None, None, None, None, None, None)) == Ok(p)
  {
  }
}
