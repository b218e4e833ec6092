/** The Mongoose validators the three schemas use, path by path. Each
    returns the first rule a value breaks, `required` first. `inserting` is
    true for `create` and false for update validators, which never run
    `required` on a path the update leaves out. */
module Schema {
  import opened Common
  import Text
  import Email

  /** A required String path with optional `minlength` and `maxlength`.
      `required` refuses the empty string. Lengths are JavaScript's
      `length`, which counts UTF-16 code units. */
  function StringRule(v: Option<string>, inserting: bool, minLength: nat, maxLength: Option<nat>): (r: Option<Rule>)
    ensures r == None <==> FitsString(v, inserting, minLength, maxLength)
  {
    match v
    case None => if inserting then Some(Required) else None
    case Some(s) =>
      if s == "" then Some(Required)
      else if Text.Utf16Length(s) < minLength then Some(MinLength(minLength))
      else if maxLength.Some? && Text.Utf16Length(s) > maxLength.value then Some(MaxLength(maxLength.value))
      else None
  }

  /** A required Number path with `min`. `required` accepts 0. */
  function NumberRule(v: Option<int>, inserting: bool, min: int): (r: Option<Rule>)
    ensures r == None <==> (v.None? && !inserting) || (v.Some? && v.value >= min)
  {
    match v
    case None => if inserting then Some(Required) else None
    case Some(n) => if n < min then Some(AtLeast(min)) else None
  }

  /** A required path with no other validator (an ObjectId reference). */
  function PresenceRule<T>(v: Option<T>, inserting: bool): (r: Option<Rule>)
    ensures r == None <==> v.Some? || !inserting
  {
    if v.None? && inserting then Some(Required) else None
  }

  /** An optional String path with `enum`; a missing value passes. */
  function EnumRule(v: Option<string>, values: set<string>): (r: Option<Rule>)
    ensures r == None <==> v.None? || v.value in values
  {
    if v.Some? && v.value !in values then Some(NotInEnum) else None
  }

  /** The report for one path: its first broken rule, if any. */
  function At(path: string, r: Option<Rule>): (vs: set<Violation>)
    ensures vs == {} <==> r.None?
    ensures forall x :: x in vs ==> x.path == path
  {
    if r.Some? then {Violation(path, r.value)} else {}
  }

  /** A required String path with the address pattern as its `match`
      validator, which runs only on a non-empty value. */
  function EmailRule(v: Option<string>): (r: Option<Rule>)
    ensures r == None <==> v.Some? && v.value != "" && Email.MatchesPattern(v.value)
  {
    var req := StringRule(v, true, 0, None);
    if req.Some? then req
    else
      Email.PatternIff(v.value);
      if Email.IsEmail(v.value) then None else Some(NoMatch)
  }

  /** Four path reports together are empty just when each one is. */
  lemma UnionEmpty(a: set<Violation>, b: set<Violation>, c: set<Violation>, d: set<Violation>)
    ensures a + b + c + d == {} <==> a == {} && b == {} && c == {} && d == {}
  {
  }

  /** A value a required String path accepts, stated without the order in
      which the validators run. */
  predicate FitsString(v: Option<string>, inserting: bool, minLength: nat, maxLength: Option<nat>) {
    if v.None? then !inserting
    else
      var n := Text.Utf16Length(v.value);
      v.value != "" && n >= minLength && (maxLength.None? || n <= maxLength.value)
  }

  /** The value a path with a default ends up with. */
  function OrElse<T>(v: Option<T>, default: T): (r: T)
    ensures v.Some? ==> r == v.value
    ensures v.None? ==> r == default
  {
    if v.Some? then v.value else default
  }

  /** The `trim` setter on an optional path. */
  function TrimOpt(v: Option<string>): (r: Option<string>)
    ensures r.None? <==> v.None?
    ensures r.Some? ==> r.value == Text.Trim(v.value)
  {
    if v.Some? then Some(Text.Trim(v.value)) else None
  }
}
