/** Trip metrics over the destination list (src/lib/geo.ts): the length of the route that
    visits the destinations in list order, and the destinations grouped by country. */
module Geo {
  import opened Types
  import opened Seqs
  import opened Text
  import opened Tally

  // ----- total distance -----

  /** A point on the globe, as a destination's coordinates. */
  datatype Position = Position(lat: real, lng: real)

  function PositionOf(d: Destination): Position {
    Position(d.latitude, d.longitude)
  }

  /** The route length: the distance of every leg between consecutive destinations. */
  function PathLength(ds: seq<Destination>, dist: (Position, Position) -> real): (r: real)
    ensures |ds| < 2 ==> r == 0.0
    ensures |ds| == 2 ==> r == dist(PositionOf(ds[0]), PositionOf(ds[1]))
  {
    if |ds| < 2 then 0.0 else dist(PositionOf(ds[0]), PositionOf(ds[1])) + PathLength(ds[1..], dist)
  }

  /** Appending a destination adds exactly the leg from the last one to it. */
  lemma {:induction false} PathLengthAppend(ds: seq<Destination>, d: Destination, dist: (Position, Position) -> real)
    requires ds != []
    ensures PathLength(ds + [d], dist) == PathLength(ds, dist) + dist(PositionOf(ds[|ds| - 1]), PositionOf(d))
  {
    var ext := ds + [d];
    if |ds| == 1 {
      assert ext[0] == ds[0] && ext[1] == d && |ext[1..]| == 1;
    } else {
      assert ext[0] == ds[0] && ext[1] == ds[1] && ext[1..] == ds[1..] + [d];
      PathLengthAppend(ds[1..], d, dist);
    }
  }

  /** With no negative leg the route length is never negative. */
  lemma {:induction false} PathLengthNonNegative(ds: seq<Destination>, dist: (Position, Position) -> real)
    requires forall p, q :: dist(p, q) >= 0.0
    ensures PathLength(ds, dist) >= 0.0
  {
    if |ds| >= 2 {
      PathLengthNonNegative(ds[1..], dist);
    }
  }

  /** getTotalDistanceKm, over a given distance function: 0 for fewer than two destinations,
      otherwise the sum over consecutive pairs, accumulated from the front. */
  method TotalDistanceKm(ds: seq<Destination>, dist: (Position, Position) -> real) returns (sum: real)
    ensures sum == PathLength(ds, dist)
    ensures |ds| < 2 ==> sum == 0.0
  {
    if |ds| < 2 {
      return 0.0;
    }
    sum := 0.0;
    for i := 1 to |ds|
      invariant sum == PathLength(ds[..i], dist)
    {
      assert ds[..i + 1] == ds[..i] + [ds[i]];
      assert ds[..i][i - 1] == ds[i - 1];
      PathLengthAppend(ds[..i], ds[i], dist);
      sum := sum + dist(PositionOf(ds[i - 1]), PositionOf(ds[i]));
    }
    assert ds[..|ds|] == ds;
  }

  // ----- country key -----

  /** `s || 'Unknown'`: the empty string is falsy. */
  function OrUnknown(s: string): string {
    if s == "" then "Unknown" else s
  }

  /** The country a destination name is filed under: the last comma-separated segment,
      trimmed, or "Unknown" when that is empty. */
  function CountryKey(name: string): (c: string)
    ensures c != ""
  {
    var parts := MapSeq(Split(name, ','), Trim);
    OrUnknown(parts[|parts| - 1])
  }

  /** A name without a comma is filed under its whole trimmed text. */
  lemma CountryKeyNoComma(name: string)
    requires ',' !in name
    ensures CountryKey(name) == OrUnknown(Trim(name))
  {
    SplitWithoutSeparator(name, ',');
  }

  /** A name with a comma is filed under the trimmed text after its last comma. */
  lemma CountryKeyAfterLastComma(name: string, i: nat)
    requires i < |name| && name[i] == ','
    requires forall j | i < j < |name| :: name[j] != ','
    ensures CountryKey(name) == OrUnknown(Trim(name[i + 1..]))
  {
    LastPartIsSuffix(name, ',');
    var parts := Split(name, ',');
    var last := parts[|parts| - 1];
    var st := |name| - |last|;
    assert forall j | st <= j < |name| :: name[j] == last[j - st];
    assert st == i + 1;
    assert last == name[i + 1..];
  }

  /** An empty segment after the last comma, as in an empty name or a trailing comma,
      files the destination under "Unknown". */
  lemma CountryKeyUnknown(name: string)
    requires name == [] || name[|name| - 1] == ','
    ensures CountryKey(name) == "Unknown"
  {
    if name != [] {
      CountryKeyAfterLastComma(name, |name| - 1);
      assert name[|name|..] == "";
    }
  }

  // ----- countries visited -----

  datatype CountryCount = CountryCount(country: string, count: nat)
  datatype CountrySummary = CountrySummary(countriesCount: nat, countriesBreakdown: seq<CountryCount>)

  function CountryOf(d: Destination): string { CountryKey(d.name) }
  function CountryKeys(ds: seq<Destination>): seq<string> { MapSeq(ds, CountryOf) }

  /** One counting step per destination: weight 1 under its country. */
  function CountryEntry(d: Destination): Entry<string> { Entry(CountryKey(d.name), 1) }
  function CountryEntries(ds: seq<Destination>): seq<Entry<string>> { MapSeq(ds, CountryEntry) }

  function ToCountryCount(e: Entry<string>): CountryCount { CountryCount(e.key, e.weight) }

  /** The breakdown getCountriesVisited reports: the counter's entries as records. */
  function Breakdown(ds: seq<Destination>): (r: seq<CountryCount>)
    ensures |r| <= |ds|
  {
    FirstOccurrencesLength(Keys(CountryEntries(ds)));
    MapSeq(Totals(CountryEntries(ds)), ToCountryCount)
  }

  function CountryLabel(c: CountryCount): string { c.country }
  function Countries(b: seq<CountryCount>): seq<string> { MapSeq(b, CountryLabel) }

  function SumCounts(b: seq<CountryCount>): nat {
    if b == [] then 0 else b[0].count + SumCounts(b[1..])
  }

  /** getCountriesVisited: count destinations per country in a Map, then report its
      entries and how many there are. */
  method CountriesVisited(ds: seq<Destination>) returns (r: CountrySummary)
    ensures r.countriesBreakdown == Breakdown(ds)
    ensures r.countriesCount == |r.countriesBreakdown|
  {
    var m := new Counter<string>();
    for i := 0 to |ds|
      invariant m.Valid() && m.added == CountryEntries(ds[..i])
    {
      CountryEntriesSnoc(ds, i);
      m.Add(CountryKey(ds[i].name), 1);
    }
    CountryEntriesAll(ds);
    var breakdown := MapSeq(m.Entries(), ToCountryCount);
    r := CountrySummary(|breakdown|, breakdown);
  }

  lemma CountryEntriesSnoc(ds: seq<Destination>, i: nat)
    requires i < |ds|
    ensures CountryEntries(ds[..i + 1]) == CountryEntries(ds[..i]) + [Entry(CountryKey(ds[i].name), 1)]
  {
    MapSnoc(ds, i, CountryEntry);
  }

  lemma CountryEntriesAll(ds: seq<Destination>)
    ensures CountryEntries(ds[..|ds|]) == CountryEntries(ds)
  {
    assert ds[..|ds|] == ds;
  }

  lemma CountryEntryKeys(ds: seq<Destination>)
    ensures Keys(CountryEntries(ds)) == CountryKeys(ds)
    ensures forall i | 0 <= i < |CountryEntries(ds)| :: CountryEntries(ds)[i].weight == 1
  {
  }

  lemma CountriesOfTotals(t: seq<Entry<string>>)
    ensures Countries(MapSeq(t, ToCountryCount)) == Keys(t)
  {
  }

  lemma CountryKeysMembers(ds: seq<Destination>)
    ensures forall c :: c in CountryKeys(ds) <==> exists i :: 0 <= i < |ds| && CountryOf(ds[i]) == c
  {
    forall c | c in CountryKeys(ds) ensures exists i :: 0 <= i < |ds| && CountryOf(ds[i]) == c {
      var i :| 0 <= i < |ds| && CountryKeys(ds)[i] == c;
    }
  }

  /** The breakdown lists each country of the data set once, and no other, in the order
      each country first appears in the list. */
  lemma BreakdownCountries(ds: seq<Destination>)
    ensures Countries(Breakdown(ds)) == FirstOccurrences(CountryKeys(ds))
    ensures Distinct(Countries(Breakdown(ds)))
    ensures forall c :: c in Countries(Breakdown(ds)) <==> exists i :: 0 <= i < |ds| && CountryOf(ds[i]) == c
  {
    var es := CountryEntries(ds);
    CountriesOfTotals(Totals(es));
    TotalsShape(es);
    CountryEntryKeys(ds);
    CountryKeysMembers(ds);
  }

  /** Each country's count is the number of destinations filed under it. */
  lemma BreakdownCounts(ds: seq<Destination>)
    ensures forall i | 0 <= i < |Breakdown(ds)| ::
      Breakdown(ds)[i].count == multiset(CountryKeys(ds))[Breakdown(ds)[i].country]
  {
    var es := CountryEntries(ds);
    TotalsShape(es);
    CountryEntryKeys(ds);
    forall i | 0 <= i < |Breakdown(ds)|
      ensures Breakdown(ds)[i].count == multiset(CountryKeys(ds))[Breakdown(ds)[i].country]
    {
      UnitWeights(es, Totals(es)[i].key);
    }
  }

  lemma {:induction false} SumCountsOfTotals(t: seq<Entry<string>>)
    ensures SumCounts(MapSeq(t, ToCountryCount)) == SumWeights(t)
  {
    if t != [] {
      SumCountsOfTotals(t[1..]);
      assert MapSeq(t, ToCountryCount)[1..] == MapSeq(t[1..], ToCountryCount);
    }
  }

  /** The counts add up to the number of destinations. */
  lemma BreakdownSum(ds: seq<Destination>)
    ensures SumCounts(Breakdown(ds)) == |ds|
  {
    var es := CountryEntries(ds);
    SumCountsOfTotals(Totals(es));
    SumTotals(es);
    CountryEntryKeys(ds);
    UnitSum(es);
  }

  /** A country seen earlier in the list comes earlier in the breakdown. */
  lemma BreakdownOrder(ds: seq<Destination>)
    ensures forall i, j | 0 <= i < j < |Breakdown(ds)| ::
      Breakdown(ds)[i].country in CountryKeys(ds) && Breakdown(ds)[j].country in CountryKeys(ds) &&
      FirstIndex(CountryKeys(ds), Breakdown(ds)[i].country) < FirstIndex(CountryKeys(ds), Breakdown(ds)[j].country)
  {
    BreakdownCountries(ds);
    FirstOccurrencesOrder(CountryKeys(ds));
    var b := Breakdown(ds);
    forall i | 0 <= i < |b| ensures b[i].country == FirstOccurrences(CountryKeys(ds))[i] {
      assert Countries(b)[i] == b[i].country;
    }
  }
}
