/** routes/properties.js: the property router the server mounts at
    /api/properties. Its handlers keep no state; each builds a response
    from the request alone. The clock behind `Date.now()` and
    `new Date().toISOString()` is passed in. */
module PropertyRoutes {
  import opened Js
  import opened Text
  import Validation

  /** What `res.status(..).json({ success, message, data })` sends. */
  datatype Response = Response(status: nat, success: bool, message: string, data: Value)

  const TestTitle := "Test Property"

  /** The fallback for each of the seven fields when the body's value is falsy. */
  const Defaults: map<string, Value> := map[
    "title" := Str(TestTitle),
    "description" := Str("Beautiful apartment"),
    "price" := Str("25000"),
    "location" := Str("Nairobi"),
    "bedrooms" := Num(2),
    "bathrooms" := Num(1),
    "area" := Num(800)
  ]

  const MockAgent: Value := Obj(map[
    "_id" := Str("mock-agent-id"),
    "name" := Str("Test Agent"),
    "email" := Str("agent@example.com")
  ])

  /** GET / */
  function ListProperties(): (r: Response)
    ensures r.status == 200 && r.success && r.data == Arr([])
  {
    Response(200, true, "Properties endpoint working", Arr([]))
  }

  /** GET /featured */
  function ListFeatured(): (r: Response)
    ensures r.status == 200 && r.success && r.data == Arr([])
  {
    Response(200, true, "Featured properties endpoint working", Arr([]))
  }

  /** GET /:id */
  function ShowProperty(id: string): (r: Response)
    ensures r.status == 200 && r.success
    ensures r.data.Obj? && r.data.fields.Keys == {"_id", "title"}
    ensures r.data.fields["_id"] == Str(id) && r.data.fields["title"] == Str(TestTitle)
  {
    Response(200, true, "Property " + id + " endpoint working",
      Obj(map["_id" := Str(id), "title" := Str(TestTitle)]))
  }

  /** The id the mock POST hands out: "property-" and the millisecond clock. */
  function MockId(now: nat): (id: string)
    ensures |id| > 9 && id[..9] == "property-"
    ensures forall i :: 9 <= i < |id| ==> IsDigit(id[i])
  {
    "property-" + Decimal(now)
  }

  /** The part of the mock listing that does not depend on the body. */
  function FixedFields(now: nat, nowIso: string): map<string, Value> {
    map[
      "_id" := Str(MockId(now)),
      "type" := Str("apartment"),
      "amenities" := Arr([]),
      "images" := Arr([]),
      "available" := Bool(true),
      "featured" := Bool(false),
      "agent" := MockAgent,
      "createdAt" := Str(nowIso)
    ]
  }

  /** POST /: each of the seven fields is `body[k] || default`; the rest
      of the listing is fixed. */
  function AddProperty(body: map<string, Value>, now: nat, nowIso: string): (r: Response)
    ensures r.status == 201 && r.success && r.data.Obj?
  {
    Response(201, true, "Property added successfully!", Obj(FixedFields(now, nowIso) + Echoed(body)))
  }

  /** The seven fields taken from the body, each `body[k] || default`. */
  function Echoed(body: map<string, Value>): (m: map<string, Value>)
    ensures m.Keys == Defaults.Keys
    ensures forall k :: k in Defaults ==> m[k] == Or(Get(body, k), Defaults[k])
  {
    map k | k in Defaults :: Or(Get(body, k), Defaults[k])
  }

  /** POST /mock */
  function MockProperty(body: map<string, Value>): (r: Response)
    ensures r.status == 201 && r.success && r.data == Obj(body)
  {
    Response(201, true, "Mock property created!", Obj(body))
  }

  /** Each of the seven fields is the body's value when that is truthy,
      and the fixed default otherwise. */
  lemma AddPropertyFields(body: map<string, Value>, now: nat, nowIso: string, k: string)
    requires k in Validation.RequiredFields
    ensures var d := AddProperty(body, now, nowIso).data.fields;
      && k in d && k in Defaults
      && (Truthy(Get(body, k)) ==> d[k] == body[k])
      && (!Truthy(Get(body, k)) ==> d[k] == Defaults[k])
  {
  }

  lemma EchoedFieldTruthy(body: map<string, Value>, now: nat, nowIso: string, k: string)
    requires k in Validation.RequiredFields
    ensures Truthy(Get(AddProperty(body, now, nowIso).data.fields, k))
  {
    AddPropertyFields(body, now, nowIso, k);
  }

  /** The reply has exactly the fifteen keys the handler writes: any other
      key of the body is never echoed. */
  lemma AddPropertyKeys(body: map<string, Value>, now: nat, nowIso: string)
    ensures AddProperty(body, now, nowIso).data.fields.Keys == Defaults.Keys + FixedFields(now, nowIso).Keys
    ensures AddProperty(body, now, nowIso).data.fields.Keys == EchoedKeys + FixedKeys
    ensures |AddProperty(body, now, nowIso).data.fields| == 15
  {
    var d := AddProperty(body, now, nowIso).data.fields;
    assert d.Keys == Defaults.Keys + FixedFields(now, nowIso).Keys;
    DefaultsKeys();
    FixedFieldsKeys(now, nowIso);
    KeyCounts();
    assert |d| == |d.Keys|;
  }

  const EchoedKeys: set<string> := {"title", "description", "price", "location", "bedrooms", "bathrooms", "area"}

  const FixedKeys: set<string> := {"_id", "type", "amenities", "images", "available", "featured", "agent", "createdAt"}

  lemma DefaultsKeys()
    ensures Defaults.Keys == EchoedKeys
  {
  }

  lemma FixedFieldsKeys(now: nat, nowIso: string)
    ensures FixedFields(now, nowIso).Keys == FixedKeys
  {
  }

  /** Seven echoed and eight fixed keys, none of them shared. */
  lemma KeyCounts()
    ensures |EchoedKeys| == 7 && |FixedKeys| == 8 && EchoedKeys * FixedKeys == {}
  {
    EchoedKeysCount();
    FixedKeysCount();
    KeysDisjoint();
  }

  lemma EchoedKeysCount()
    ensures |EchoedKeys| == 7
  {
  }

  lemma FixedKeysCount()
    ensures |FixedKeys| == 8
  {
  }

  lemma KeysDisjoint()
    ensures EchoedKeys * FixedKeys == {}
  {
  }

  /** The fixed part of the mock listing, whatever the body holds. */
  lemma AddPropertyFixedFields(body: map<string, Value>, now: nat, nowIso: string, k: string)
    requires k in FixedFields(now, nowIso)
    ensures var d := AddProperty(body, now, nowIso).data.fields;
      k in d && d[k] == FixedFields(now, nowIso)[k]
  {
    assert k !in Defaults;
  }

  /** The id is "property-" followed by the clock reading in decimal. */
  lemma {:induction false} MockIdCarriesClock(now: nat)
    ensures DigitsValue(MockId(now)[9..]) == now
  {
    assert MockId(now)[9..] == Decimal(now);
    DecimalRoundTrip(now);
  }

  /** Every default is truthy, so the listing the mock POST answers with
      always passes `validateProperty`, whatever the body held. */
  lemma {:induction false} AddPropertyPassesValidation(body: map<string, Value>, now: nat, nowIso: string)
    ensures Validation.ValidateProperty(AddProperty(body, now, nowIso).data.fields).Next?
  {
    var d := AddProperty(body, now, nowIso).data.fields;
    forall i | 0 <= i < |Validation.RequiredFields|
      ensures Truthy(Get(d, Validation.RequiredFields[i]))
    {
      EchoedFieldTruthy(body, now, nowIso, Validation.RequiredFields[i]);
    }
  }
}
