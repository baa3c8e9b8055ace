/** The aggregations of the analytics panel (src/components/AnalyticsPanel.tsx): the mood
    timeline, which counts mood tags per day, and the pie of destinations per category. */
module Analytics {
  import opened Types
  import opened Seqs
  import opened Text
  import opened Tally
  import opened Store

  // ----- mood timeline -----

  /** `created_at.slice(0, 10)`: the date part of an ISO timestamp. */
  function DayKey(createdAt: string): (day: string)
    ensures day <= createdAt
    ensures |day| == if |createdAt| < 10 then |createdAt| else 10
  {
    if |createdAt| <= 10 then createdAt else createdAt[..10]
  }

  /** The counting step for one note: its tag count under its day. */
  function MoodEntry(n: Note): Entry<string> { Entry(DayKey(n.createdAt), |n.moodTags|) }
  function MoodEntries(ns: seq<Note>): seq<Entry<string>> { MapSeq(ns, MoodEntry) }

  datatype MoodPoint = MoodPoint(date: string, moodScore: nat)

  function ToMoodPoint(e: Entry<string>): MoodPoint { MoodPoint(e.key, e.weight) }
  function PointDate(p: MoodPoint): string { p.date }
  function Dates(tl: seq<MoodPoint>): seq<string> { MapSeq(tl, PointDate) }

  /** Inserting into a sorted list with the comparator `(a, b) => a[0] < b[0] ? -1 : 1`:
      the entry goes before the first entry whose day it precedes. */
  function InsertByKey(e: Entry<string>, s: seq<Entry<string>>): (r: seq<Entry<string>>)
    ensures |r| == |s| + 1
  {
    if s == [] then [e]
    else if LexLess(e.key, s[0].key) then [e] + s
    else [s[0]] + InsertByKey(e, s[1..])
  }

  ghost predicate StrictlyAscending(s: seq<Entry<string>>) {
    forall i, j | 0 <= i < j < |s| :: LexLess(s[i].key, s[j].key)
  }

  /** `.sort((a, b) => (a[0] < b[0] ? -1 : 1))` on the day totals: the entries are
      rearranged, none is lost or added, and under distinct days they come out strictly
      ascending by day. */
  function SortByKey(s: seq<Entry<string>>): (r: seq<Entry<string>>)
    ensures |r| == |s|
    ensures multiset(r) == multiset(s)
    ensures Distinct(Keys(s)) ==> StrictlyAscending(r)
  {
    if s == [] then []
    else
      var t := SortByKey(s[1..]);
      InsertMultiset(s[0], t);
      assert s == [s[0]] + s[1..];
      SortStepAscending(s, t);
      InsertByKey(s[0], t)
  }

  /** The timeline the panel draws: the day totals, sorted by day. */
  function Timeline(ds: seq<Destination>): (r: seq<MoodPoint>)
    ensures |r| <= |AllNotes(ds)|
  {
    FirstOccurrencesLength(Keys(MoodEntries(AllNotes(ds))));
    MapSeq(SortByKey(Totals(MoodEntries(AllNotes(ds)))), ToMoodPoint)
  }

  /** Tags on a list of notes. */
  function TagCount(ns: seq<Note>): nat {
    if ns == [] then 0 else |ns[0].moodTags| + TagCount(ns[1..])
  }

  function OnDay(day: string): Note -> bool { (n: Note) => DayKey(n.createdAt) == day }

  /** A day's score as the panel promises it: the tags on that day's notes. */
  function DayScore(ds: seq<Destination>, day: string): nat {
    TagCount(Filter(AllNotes(ds), OnDay(day)))
  }

  function SumScores(tl: seq<MoodPoint>): nat {
    if tl == [] then 0 else tl[0].moodScore + SumScores(tl[1..])
  }

  /** moodTimeline: count tags per day over every note of every destination, then sort
      the days and turn the entries into points. */
  method MoodTimeline(ds: seq<Destination>) returns (tl: seq<MoodPoint>)
    ensures tl == Timeline(ds)
    ensures forall i, j | 0 <= i < j < |tl| :: LexLess(tl[i].date, tl[j].date)
    ensures forall i | 0 <= i < |tl| :: tl[i].moodScore == DayScore(ds, tl[i].date)
    ensures SumScores(tl) == TagCount(AllNotes(ds))
  {
    var m := new Counter<string>();
    for i := 0 to |ds|
      invariant m.Valid() && m.added == MoodEntries(AllNotes(ds[..i]))
    {
      var notes := ds[i].notes;
      assert AllNotes(ds[..i]) + notes[..0] == AllNotes(ds[..i]);
      for j := 0 to |notes|
        invariant m.Valid() && m.added == MoodEntries(AllNotes(ds[..i]) + notes[..j])
      {
        MapPrefixSnoc(AllNotes(ds[..i]), notes, j, MoodEntry);
        m.Add(DayKey(notes[j].createdAt), |notes[j].moodTags|);
      }
      assert notes[..|notes|] == notes;
      AllNotesSnoc(ds, i);
    }
    assert ds[..|ds|] == ds;
    tl := MapSeq(SortByKey(m.Entries()), ToMoodPoint);
    TimelineAscending(ds);
    TimelineScores(ds);
    TimelineTotal(ds);
  }

  // ----- sorting -----

  lemma {:induction false} InsertMultiset(e: Entry<string>, s: seq<Entry<string>>)
    ensures multiset(InsertByKey(e, s)) == multiset(s) + multiset{e}
  {
    if s != [] && !LexLess(e.key, s[0].key) {
      InsertMultiset(e, s[1..]);
      assert s == [s[0]] + s[1..];
    }
  }

  lemma {:induction false} InsertAscending(e: Entry<string>, s: seq<Entry<string>>)
    requires StrictlyAscending(s)
    requires forall i | 0 <= i < |s| :: s[i].key != e.key
    ensures StrictlyAscending(InsertByKey(e, s))
  {
    if s != [] {
      if LexLess(e.key, s[0].key) {
        InsertAtFront(e, s);
      } else {
        LexTotal(e.key, s[0].key);
        AscendingTail(s);
        InsertAscending(e, s[1..]);
        InsertAfterHead(e, s);
      }
    }
  }

  /** The entry that precedes the first one goes first and keeps the order. */
  lemma InsertAtFront(e: Entry<string>, s: seq<Entry<string>>)
    requires s != [] && StrictlyAscending(s) && LexLess(e.key, s[0].key)
    ensures StrictlyAscending(InsertByKey(e, s))
  {
    var r := InsertByKey(e, s);
    forall j | 0 < j < |s| ensures LexLess(e.key, s[j].key) {
      LexTransitive(e.key, s[0].key, s[j].key);
    }
    forall i, j | 0 <= i < j < |r| ensures LexLess(r[i].key, r[j].key) {
      if i > 0 {
        assert r[i] == s[i - 1] && r[j] == s[j - 1];
      }
    }
  }

  lemma AscendingTail(s: seq<Entry<string>>)
    requires s != [] && StrictlyAscending(s)
    ensures StrictlyAscending(s[1..])
  {
    forall i, j | 0 <= i < j < |s[1..]| ensures LexLess(s[1..][i].key, s[1..][j].key) {
      assert s[1..][i] == s[i + 1] && s[1..][j] == s[j + 1];
    }
  }

  /** An entry that follows the first one is inserted into the rest, after the first. */
  lemma InsertAfterHead(e: Entry<string>, s: seq<Entry<string>>)
    requires s != [] && StrictlyAscending(s) && LexLess(s[0].key, e.key)
    requires StrictlyAscending(InsertByKey(e, s[1..]))
    ensures StrictlyAscending(InsertByKey(e, s))
  {
    var r := InsertByKey(e, s);
    var t := InsertByKey(e, s[1..]);
    assert !LexLess(e.key, s[0].key) by {
      LexAsymmetric(s[0].key, e.key);
    }
    assert r == [s[0]] + t;
    InsertMultiset(e, s[1..]);
    forall k | 0 <= k < |t| ensures LexLess(s[0].key, t[k].key) {
      assert t[k] in multiset(s[1..]) + multiset{e};
      if t[k] != e {
        var m :| 0 <= m < |s[1..]| && s[1..][m] == t[k];
        assert s[1..][m] == s[m + 1];
      }
    }
    forall i, j | 0 <= i < j < |r| ensures LexLess(r[i].key, r[j].key) {
      assert r[j] == t[j - 1];
      if i > 0 {
        assert r[i] == t[i - 1];
      }
    }
  }

  /** One step of the sort: inserting the first entry into the sorted rest keeps the
      order when the days are distinct. */
  lemma SortStepAscending(s: seq<Entry<string>>, t: seq<Entry<string>>)
    requires s != [] && multiset(t) == multiset(s[1..])
    requires Distinct(Keys(s[1..])) ==> StrictlyAscending(t)
    ensures Distinct(Keys(s)) ==> StrictlyAscending(InsertByKey(s[0], t))
  {
    if Distinct(Keys(s)) {
      assert Keys(s) == [s[0].key] + Keys(s[1..]) by {
        MapConcat([s[0]], s[1..], KeyOf);
        assert s == [s[0]] + s[1..];
      }
      DistinctConcat([s[0].key], Keys(s[1..]));
      forall i | 0 <= i < |t| ensures t[i].key != s[0].key {
        assert t[i] in multiset(s[1..]);
        var m :| 0 <= m < |s[1..]| && s[1..][m] == t[i];
        assert Keys(s[1..])[m] == t[i].key;
      }
      InsertAscending(s[0], t);
    }
  }

  lemma {:induction false} InsertSum(e: Entry<string>, s: seq<Entry<string>>)
    ensures SumWeights(InsertByKey(e, s)) == e.weight + SumWeights(s)
  {
    if s != [] && !LexLess(e.key, s[0].key) {
      InsertSum(e, s[1..]);
    }
  }

  lemma {:induction false} SortSum(s: seq<Entry<string>>)
    ensures SumWeights(SortByKey(s)) == SumWeights(s)
  {
    if s != [] {
      SortSum(s[1..]);
      InsertSum(s[0], SortByKey(s[1..]));
    }
  }

  // ----- what the timeline promises -----

  lemma {:induction false} MoodWeights(ns: seq<Note>, day: string)
    ensures WeightOf(MoodEntries(ns), day) == TagCount(Filter(ns, OnDay(day)))
  {
    if ns != [] {
      MoodWeights(ns[1..], day);
      FilterCons(ns[0], ns[1..], OnDay(day));
      assert ns == [ns[0]] + ns[1..];
      assert MoodEntries(ns)[1..] == MoodEntries(ns[1..]);
    }
  }

  lemma {:induction false} MoodSum(ns: seq<Note>)
    ensures SumWeights(MoodEntries(ns)) == TagCount(ns)
  {
    if ns != [] {
      MoodSum(ns[1..]);
      assert MoodEntries(ns)[1..] == MoodEntries(ns[1..]);
    }
  }

  lemma MoodKeys(ns: seq<Note>)
    ensures forall i | 0 <= i < |ns| :: Keys(MoodEntries(ns))[i] == DayKey(ns[i].createdAt)
    ensures |Keys(MoodEntries(ns))| == |ns|
  {
  }

  lemma TimelineShape(ds: seq<Destination>)
    ensures var t := Totals(MoodEntries(AllNotes(ds)));
      && Distinct(Keys(t))
      && |Timeline(ds)| == |t|
      && forall i | 0 <= i < |Timeline(ds)| :: Timeline(ds)[i] == ToMoodPoint(SortByKey(t)[i])
  {
    TotalsShape(MoodEntries(AllNotes(ds)));
  }

  /** Days are strictly ascending, so each day appears once. */
  lemma TimelineAscending(ds: seq<Destination>)
    ensures forall i, j | 0 <= i < j < |Timeline(ds)| :: LexLess(Timeline(ds)[i].date, Timeline(ds)[j].date)
  {
    var t := Totals(MoodEntries(AllNotes(ds)));
    TimelineShape(ds);
  }

  /** A sorted entry is one of the totals. */
  lemma SortedFromTotals(t: seq<Entry<string>>, i: nat)
    requires i < |t|
    ensures SortByKey(t)[i] in t
  {
    assert SortByKey(t)[i] in multiset(SortByKey(t));
  }

  /** Each point scores the tags on its day's notes. */
  lemma TimelineScores(ds: seq<Destination>)
    ensures forall i | 0 <= i < |Timeline(ds)| :: Timeline(ds)[i].moodScore == DayScore(ds, Timeline(ds)[i].date)
  {
    var es := MoodEntries(AllNotes(ds));
    var t := Totals(es);
    TimelineShape(ds);
    TotalsShape(es);
    forall i | 0 <= i < |Timeline(ds)| ensures Timeline(ds)[i].moodScore == DayScore(ds, Timeline(ds)[i].date) {
      SortedFromTotals(t, i);
      var k :| 0 <= k < |t| && t[k] == SortByKey(t)[i];
      MoodWeights(AllNotes(ds), t[k].key);
    }
  }

  /** Sorting keeps the set of days. */
  lemma SortedDates(t: seq<Entry<string>>)
    ensures forall day :: day in Dates(MapSeq(SortByKey(t), ToMoodPoint)) <==> day in Keys(t)
  {
    var tl := MapSeq(SortByKey(t), ToMoodPoint);
    forall day | day in Dates(tl) ensures day in Keys(t) {
      var i :| 0 <= i < |tl| && Dates(tl)[i] == day;
      SortedFromTotals(t, i);
      var k :| 0 <= k < |t| && t[k] == SortByKey(t)[i];
      assert Keys(t)[k] == day;
    }
    forall day | day in Keys(t) ensures day in Dates(tl) {
      var k :| 0 <= k < |t| && Keys(t)[k] == day;
      assert t[k] in multiset(SortByKey(t));
      var i :| 0 <= i < |SortByKey(t)| && SortByKey(t)[i] == t[k];
      assert Dates(tl)[i] == day;
    }
  }

  /** The days counted are the days of the notes. */
  lemma MoodDays(ns: seq<Note>)
    ensures forall day :: day in Keys(MoodEntries(ns)) <==> exists i :: 0 <= i < |ns| && DayKey(ns[i].createdAt) == day
  {
    var es := MoodEntries(ns);
    MoodKeys(ns);
    forall day | day in Keys(es) ensures exists i :: 0 <= i < |ns| && DayKey(ns[i].createdAt) == day {
      var i :| 0 <= i < |Keys(es)| && Keys(es)[i] == day;
    }
  }

  /** The days of the sorted totals of some notes are the days of those notes. */
  lemma SortedTotalsDays(ns: seq<Note>)
    ensures forall day :: day in Dates(MapSeq(SortByKey(Totals(MoodEntries(ns))), ToMoodPoint)) <==>
      exists i :: 0 <= i < |ns| && DayKey(ns[i].createdAt) == day
  {
    var es := MoodEntries(ns);
    SortedDates(Totals(es));
    TotalsShape(es);
    MoodDays(ns);
  }

  /** Every day with a note appears, even one whose notes carry no tags, and no other day. */
  lemma {:induction false} TimelineDays(ds: seq<Destination>)
    ensures forall day :: day in Dates(Timeline(ds)) <==>
      exists i :: 0 <= i < |AllNotes(ds)| && DayKey(AllNotes(ds)[i].createdAt) == day
  {
    SortedTotalsDays(AllNotes(ds));
    assert Dates(Timeline(ds)) == Dates(MapSeq(SortByKey(Totals(MoodEntries(AllNotes(ds)))), ToMoodPoint));
    assert forall day :: day in Dates(MapSeq(SortByKey(Totals(MoodEntries(AllNotes(ds)))), ToMoodPoint)) <==>
      exists i :: 0 <= i < |AllNotes(ds)| && DayKey(AllNotes(ds)[i].createdAt) == day;
  }

  lemma {:induction false} SumScoresOf(s: seq<Entry<string>>)
    ensures SumScores(MapSeq(s, ToMoodPoint)) == SumWeights(s)
  {
    if s != [] {
      SumScoresOf(s[1..]);
      assert MapSeq(s, ToMoodPoint)[1..] == MapSeq(s[1..], ToMoodPoint);
    }
  }

  /** The scores add up to the number of mood tags on all notes of all destinations. */
  lemma TimelineTotal(ds: seq<Destination>)
    ensures SumScores(Timeline(ds)) == TagCount(AllNotes(ds))
  {
    var es := MoodEntries(AllNotes(ds));
    SumScoresOf(SortByKey(Totals(es)));
    SortSum(Totals(es));
    SumTotals(es);
    MoodSum(AllNotes(ds));
  }

  // ----- category pie -----

  datatype PieSlice = PieSlice(name: string, value: nat, color: string)

  function InCategory(c: Category): Destination -> bool { (d: Destination) => d.category == c }

  /** The number of destinations in a category. */
  function CategoryCount(ds: seq<Destination>, c: Category): (r: nat)
    ensures r <= |ds|
    ensures (forall i | 0 <= i < |ds| :: ds[i].category != c) ==> r == 0
  {
    var f := Filter(ds, InCategory(c));
    assert f != [] ==> f[0] in f;
    |Filter(ds, InCategory(c))|
  }

  lemma CategoryCountSnoc(ds: seq<Destination>, i: nat, c: Category)
    requires i < |ds|
    ensures CategoryCount(ds[..i + 1], c) == CategoryCount(ds[..i], c) + (if ds[i].category == c then 1 else 0)
  {
    assert ds[..i + 1] == ds[..i] + [ds[i]];
    FilterConcat(ds[..i], [ds[i]], InCategory(c));
    FilterCons(ds[i], [], InCategory(c));
    assert [ds[i]] + [] == [ds[i]];
  }

  /** pieData: count destinations per category in a record, then report the three slices
      in a fixed order with fixed colours. */
  method PieData(ds: seq<Destination>) returns (slices: seq<PieSlice>)
    ensures slices == [PieSlice("Dream", CategoryCount(ds, Dream), "#A78BFA"),
                       PieSlice("Planning", CategoryCount(ds, Planning), "#FBBF24"),
                       PieSlice("Visited", CategoryCount(ds, Visited), "#34D399")]
  {
    var catCounts: map<Category, nat> := map[Dream := 0, Planning := 0, Visited := 0];
    assert ds[..0] == [];
    forall c: Category ensures c in catCounts && catCounts[c] == 0 {
      match c
      case Dream =>
      case Planning =>
      case Visited =>
    }
    for i := 0 to |ds|
      invariant forall c: Category :: c in catCounts && catCounts[c] == CategoryCount(ds[..i], c)
    {
      forall c: Category ensures CategoryCount(ds[..i + 1], c) == CategoryCount(ds[..i], c) + (if ds[i].category == c then 1 else 0) {
        CategoryCountSnoc(ds, i, c);
      }
      catCounts := catCounts[ds[i].category := catCounts[ds[i].category] + 1];
    }
    assert ds[..|ds|] == ds;
    slices := [PieSlice("Dream", catCounts[Dream], "#A78BFA"),
               PieSlice("Planning", catCounts[Planning], "#FBBF24"),
               PieSlice("Visited", catCounts[Visited], "#34D399")];
  }

  /** The three slices add up to the number of destinations. */
  lemma {:induction false} PieTotal(ds: seq<Destination>)
    ensures CategoryCount(ds, Dream) + CategoryCount(ds, Planning) + CategoryCount(ds, Visited) == |ds|
  {
    if ds != [] {
      PieTotal(ds[1..]);
      assert ds == [ds[0]] + ds[1..];
      FilterCons(ds[0], ds[1..], InCategory(Dream));
      FilterCons(ds[0], ds[1..], InCategory(Planning));
      FilterCons(ds[0], ds[1..], InCategory(Visited));
    }
  }
}
