/** Shaping a reverse-geocoding answer (src/lib/geocoding.ts) into city, state, country and
    a formatted label. The HTTP exchange itself is an input: what came back, if anything. */
module Geocoding {
  import opened Types
  import opened Text

  /** The address fields the lookup reads; each may be missing. */
  datatype Address = Address(
    city: Option<string>,
    town: Option<string>,
    village: Option<string>,
    hamlet: Option<string>,
    state: Option<string>,
    region: Option<string>,
    county: Option<string>,
    country: Option<string>)

  const EmptyAddress := Address(None, None, None, None, None, None, None, None)

  /** The parsed response body: no JSON at all, JSON `null`, or an object whose `address`
      member is an address object or missing. */
  datatype Body = Unparsable | NullBody | Payload(address: Option<Address>)

  /** The awaited `fetch`: it threw, or it answered with a status and a body. */
  datatype FetchOutcome = FetchFailed | Response(ok: bool, body: Body)

  /** ReverseGeocodeResult; an absent optional field is `None`. */
  datatype GeocodeResult = GeocodeResult(
    city: Option<string>,
    state: Option<string>,
    country: Option<string>,
    formatted: string)

  /** A string value is truthy when it is present and not empty. */
  predicate Truthy(v: Option<string>) {
    v.Some? && v.value != ""
  }

  /** `a || b`: the left operand when it is truthy, otherwise the right one as it is. */
  function Or(a: Option<string>, b: Option<string>): (r: Option<string>)
    ensures Truthy(r) <==> Truthy(a) || Truthy(b)
    ensures Truthy(a) ==> r == a
    ensures !Truthy(a) ==> r == b
  {
    if Truthy(a) then a else b
  }

  /** `.filter(Boolean)` on the candidate values: the truthy ones, in order (the order is
      PresentConcat). */
  function Present(vs: seq<Option<string>>): (r: seq<string>)
    ensures forall i | 0 <= i < |r| :: r[i] != ""
    ensures |r| <= |vs|
    ensures forall x :: x in r <==> exists i | 0 <= i < |vs| :: Truthy(vs[i]) && vs[i].value == x
  {
    if vs == [] then []
    else
      assert forall i | 1 <= i < |vs| :: vs[i] == vs[1..][i - 1];
      PresentOne(vs[0]) + Present(vs[1..])
  }

  /** The one-value case of `.filter(Boolean)`: the value if it is truthy, else nothing. */
  function PresentOne(v: Option<string>): (r: seq<string>)
    ensures r == [] <==> !Truthy(v)
    ensures Truthy(v) ==> r == [v.value]
  {
    if Truthy(v) then [v.value] else []
  }

  /** The filter keeps the order of its input: on a concatenation it filters each part. */
  lemma {:induction false} PresentConcat(a: seq<Option<string>>, b: seq<Option<string>>)
    ensures Present(a + b) == Present(a) + Present(b)
  {
    if a != [] {
      assert (a + b)[0] == a[0] && (a + b)[1..] == a[1..] + b;
      PresentConcat(a[1..], b);
    } else {
      assert a + b == b;
    }
  }

  /** `[city, state, country].filter(Boolean)` takes each of the three values in turn. */
  lemma PresentOfThree(a: Option<string>, b: Option<string>, c: Option<string>)
    ensures Present([a, b, c]) == PresentOne(a) + PresentOne(b) + PresentOne(c)
  {
    var vs := [a, b, c];
    assert vs[1..] == [b, c] && vs[1..][1..] == [c] && vs[1..][1..][1..] == [];
    assert Present([c]) == PresentOne(c) + Present([]);
  }

  /** `parts.join(', ')` over the present values of city, state and country. */
  function Formatted(city: Option<string>, state: Option<string>, country: Option<string>): (r: string)
    ensures r == Join(PresentOne(city) + PresentOne(state) + PresentOne(country), ", ")
  {
    PresentOfThree(city, state, country);
    Join(Present([city, state, country]), ", ")
  }

  /** The result for an address record: each field is one of its candidate fields, the
      country is taken as it is, and the label is built from the three chosen values. */
  function ShapeAddress(a: Address): (r: GeocodeResult)
    ensures r.city in {a.city, a.town, a.village, a.hamlet}
    ensures r.state in {a.state, a.region, a.county}
    ensures r.country == a.country
    ensures r.formatted == Formatted(r.city, r.state, r.country)
  {
    var city := Or(Or(Or(a.city, a.town), a.village), a.hamlet);
    var state := Or(Or(a.state, a.region), a.county);
    GeocodeResult(city, state, a.country, Formatted(city, state, a.country))
  }

  /** reverseGeocodeCityStateCountry after the request: null when the request threw, the
      status is not OK, the body is not JSON, or it is `null` (reading `.address` throws);
      a missing address counts as an empty record. */
  function ReverseGeocode(outcome: FetchOutcome): (r: Option<GeocodeResult>)
    ensures r.None? <==>
      outcome.FetchFailed? || !outcome.ok || outcome.body.Unparsable? || outcome.body.NullBody?
    ensures r.Some? && outcome.body.address.Some? ==> r.value == ShapeAddress(outcome.body.address.value)
    ensures r.Some? && outcome.body.address.None? ==> r.value == ShapeAddress(EmptyAddress)
  {
    match outcome
    case FetchFailed => None
    case Response(ok, body) =>
      if !ok then None
      else match body
        case Unparsable => None
        case NullBody => None
        case Payload(address) =>
          Some(ShapeAddress(if address.Some? then address.value else EmptyAddress))
  }

  /** The city is the first truthy one of city, town and village, else the hamlet value as
      it is (which may be missing or empty); it is truthy exactly when one of the four is. */
  lemma CityFallback(a: Address)
    ensures Truthy(a.city) ==> ShapeAddress(a).city == a.city
    ensures !Truthy(a.city) && Truthy(a.town) ==> ShapeAddress(a).city == a.town
    ensures !Truthy(a.city) && !Truthy(a.town) && Truthy(a.village) ==> ShapeAddress(a).city == a.village
    ensures !Truthy(a.city) && !Truthy(a.town) && !Truthy(a.village) ==> ShapeAddress(a).city == a.hamlet
    ensures Truthy(ShapeAddress(a).city) <==> Truthy(a.city) || Truthy(a.town) || Truthy(a.village) || Truthy(a.hamlet)
  {
  }

  /** The state is the first truthy one of state and region, else the county value as it is;
      the country is taken as it is. */
  lemma StateFallback(a: Address)
    ensures Truthy(a.state) ==> ShapeAddress(a).state == a.state
    ensures !Truthy(a.state) && Truthy(a.region) ==> ShapeAddress(a).state == a.region
    ensures !Truthy(a.state) && !Truthy(a.region) ==> ShapeAddress(a).state == a.county
    ensures Truthy(ShapeAddress(a).state) <==> Truthy(a.state) || Truthy(a.region) || Truthy(a.county)
    ensures ShapeAddress(a).country == a.country
  {
  }

  /** A join of non-empty parts is empty only when there are no parts. */
  lemma {:induction false} JoinEmpty(parts: seq<string>, sep: string)
    requires forall i | 0 <= i < |parts| :: parts[i] != ""
    ensures Join(parts, sep) == "" <==> parts == []
  {
    if parts != [] {
      assert |Join(parts, sep)| >= |parts[0]| > 0 by {
        if |parts| > 1 {
          assert Join(parts, sep) == parts[0] + sep + Join(parts[1..], sep);
        }
      }
    }
  }

  /** The label is empty exactly when none of city, state and country is truthy. */
  lemma FormattedEmpty(city: Option<string>, state: Option<string>, country: Option<string>)
    ensures Formatted(city, state, country) == "" <==> !Truthy(city) && !Truthy(state) && !Truthy(country)
  {
    JoinEmpty(PresentOne(city) + PresentOne(state) + PresentOne(country), ", ");
  }

  /** With all three truthy the label is "city, state, country". */
  lemma FormattedAll(city: Option<string>, state: Option<string>, country: Option<string>)
    requires Truthy(city) && Truthy(state) && Truthy(country)
    ensures Formatted(city, state, country) == city.value + ", " + state.value + ", " + country.value
  {
    var p := PresentOne(city) + PresentOne(state) + PresentOne(country);
    assert p == [city.value, state.value, country.value];
    assert p[1..] == [state.value, country.value] && p[1..][1..] == [country.value];
    assert Join(p[1..], ", ") == state.value + ", " + country.value;
  }

  /** With exactly one truthy value the label is that value alone. */
  lemma FormattedSingle(city: Option<string>, state: Option<string>, country: Option<string>)
    requires (Truthy(city) && !Truthy(state) && !Truthy(country)) ||
             (!Truthy(city) && Truthy(state) && !Truthy(country)) ||
             (!Truthy(city) && !Truthy(state) && Truthy(country))
    ensures Truthy(city) ==> Formatted(city, state, country) == city.value
    ensures Truthy(state) ==> Formatted(city, state, country) == state.value
    ensures Truthy(country) ==> Formatted(city, state, country) == country.value
  {
    var p := PresentOne(city) + PresentOne(state) + PresentOne(country);
    assert |p| == 1;
  }

  /** With exactly two truthy values the label is those two, in city, state, country
      order, joined by ", ". */
  lemma FormattedPair(city: Option<string>, state: Option<string>, country: Option<string>)
    ensures Truthy(city) && Truthy(state) && !Truthy(country) ==>
      Formatted(city, state, country) == city.value + ", " + state.value
    ensures Truthy(city) && !Truthy(state) && Truthy(country) ==>
      Formatted(city, state, country) == city.value + ", " + country.value
    ensures !Truthy(city) && Truthy(state) && Truthy(country) ==>
      Formatted(city, state, country) == state.value + ", " + country.value
  {
    var p := PresentOne(city) + PresentOne(state) + PresentOne(country);
    if |p| == 2 {
      assert p[1..] == [p[1]];
      assert Join(p, ", ") == p[0] + ", " + p[1];
    }
  }

  /** An OK answer without an address gives a result with nothing in it, not null. */
  lemma MissingAddress()
    ensures ReverseGeocode(Response(true, Payload(None))) == Some(GeocodeResult(None, None, None, ""))
  {
    FormattedEmpty(None, None, None);
  }
}
