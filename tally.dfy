/** A JavaScript Map used as a counter: `map.set(k, (map.get(k) || 0) + w)` repeated over a
    list, then read back with `Array.from(map.entries())`. A Map iterates its keys in the
    order they were first set, so the result lists each key once, in order of first
    occurrence, with the sum of the weights added under it. */
module Tally {
  import opened Seqs

  /** One call of the counting step: add weight under key. */
  datatype Entry<K> = Entry(key: K, weight: nat)

  function KeyOf<K>(e: Entry<K>): K { e.key }

  function Keys<K>(es: seq<Entry<K>>): seq<K> {
    MapSeq(es, KeyOf)
  }

  /** Total weight of a list of entries. */
  function SumWeights<K>(es: seq<Entry<K>>): nat {
    if es == [] then 0 else es[0].weight + SumWeights(es[1..])
  }

  /** Total weight added under key k: the Map's final value for k. */
  function WeightOf<K(==)>(es: seq<Entry<K>>, k: K): nat {
    if es == [] then 0 else (if es[0].key == k then es[0].weight else 0) + WeightOf(es[1..], k)
  }

  /** The keys in the order a Map first sees them, each once. */
  function FirstOccurrences<K(==)>(ks: seq<K>): (r: seq<K>)
    ensures forall k | k in r :: k in ks
    ensures forall k | k in ks :: k in r
  {
    if ks == [] then []
    else
      var p := FirstOccurrences(ks[..|ks| - 1]);
      var k := ks[|ks| - 1];
      assert ks == ks[..|ks| - 1] + [k];
      if k in p then p else p + [k]
  }

  /** The position where k first appears in ks. */
  function FirstIndex<K(==)>(ks: seq<K>, k: K): (i: nat)
    requires k in ks
    ensures i < |ks| && ks[i] == k
    ensures forall j :: 0 <= j < i ==> ks[j] != k
  {
    if ks[0] == k then 0 else 1 + FirstIndex(ks[1..], k)
  }

  /** The entries a Map holds for the keys D, in the order of D. */
  function TotalsFor<K(==)>(d: seq<K>, es: seq<Entry<K>>): (r: seq<Entry<K>>)
    ensures |r| == |d|
    ensures forall i :: 0 <= i < |d| ==> r[i] == Entry(d[i], WeightOf(es, d[i]))
  {
    if d == [] then [] else [Entry(d[0], WeightOf(es, d[0]))] + TotalsFor(d[1..], es)
  }

  /** What `Array.from(map.entries())` gives after counting es. */
  function Totals<K(==)>(es: seq<Entry<K>>): seq<Entry<K>> {
    TotalsFor(FirstOccurrences(Keys(es)), es)
  }

  // ----- facts about the pieces -----

  lemma KeysAppend<K>(es: seq<Entry<K>>, e: Entry<K>)
    ensures Keys(es + [e]) == Keys(es) + [e.key]
  {
    MapConcat(es, [e], KeyOf);
  }

  lemma {:induction false} SumAppend<K>(es: seq<Entry<K>>, e: Entry<K>)
    ensures SumWeights(es + [e]) == SumWeights(es) + e.weight
  {
    if es != [] {
      assert (es + [e])[1..] == es[1..] + [e];
      SumAppend(es[1..], e);
    }
  }

  lemma {:induction false} WeightAppend<K>(es: seq<Entry<K>>, e: Entry<K>, k: K)
    ensures WeightOf(es + [e], k) == WeightOf(es, k) + (if e.key == k then e.weight else 0)
  {
    if es != [] {
      assert (es + [e])[1..] == es[1..] + [e];
      WeightAppend(es[1..], e, k);
    }
  }

  lemma {:induction false} WeightAbsent<K>(es: seq<Entry<K>>, k: K)
    requires k !in Keys(es)
    ensures WeightOf(es, k) == 0
  {
    if es != [] {
      assert Keys(es)[0] == es[0].key;
      assert Keys(es[1..]) == Keys(es)[1..];
      WeightAbsent(es[1..], k);
    }
  }

  /** One more key: unchanged if already seen, appended otherwise. */
  lemma FirstOccurrencesAppend<K>(ks: seq<K>, k: K)
    ensures FirstOccurrences(ks + [k]) == if k in FirstOccurrences(ks) then FirstOccurrences(ks) else FirstOccurrences(ks) + [k]
  {
    assert (ks + [k])[..|ks|] == ks;
  }

  /** Each key is listed once. */
  lemma {:induction false} FirstOccurrencesDistinct<K>(ks: seq<K>)
    ensures Distinct(FirstOccurrences(ks))
  {
    if ks != [] {
      var p := FirstOccurrences(ks[..|ks| - 1]);
      var k := ks[|ks| - 1];
      FirstOccurrencesDistinct(ks[..|ks| - 1]);
      if k !in p {
        DistinctConcat(p, [k]);
      }
    }
  }

  /** A Map holds no more keys than were set. */
  lemma {:induction false} FirstOccurrencesLength<K>(ks: seq<K>)
    ensures |FirstOccurrences(ks)| <= |ks|
  {
    if ks != [] {
      FirstOccurrencesLength(ks[..|ks| - 1]);
    }
  }

  /** A key seen again keeps its first position. */
  lemma FirstIndexAppend<K>(ks: seq<K>, x: K, k: K)
    requires x in ks
    ensures FirstIndex(ks + [k], x) == FirstIndex(ks, x)
  {
    assert (ks + [k])[FirstIndex(ks, x)] == x;
  }

  /** Keys are listed in the order of their first occurrence. */
  lemma {:induction false} FirstOccurrencesOrder<K>(ks: seq<K>)
    ensures forall i, j | 0 <= i < j < |FirstOccurrences(ks)| ::
      FirstIndex(ks, FirstOccurrences(ks)[i]) < FirstIndex(ks, FirstOccurrences(ks)[j])
  {
    if ks != [] {
      var pre := ks[..|ks| - 1];
      var k := ks[|ks| - 1];
      var p := FirstOccurrences(pre);
      var r := FirstOccurrences(ks);
      assert ks == pre + [k];
      FirstOccurrencesOrder(pre);
      if k in p {
        assert r == p;
        forall i, j | 0 <= i < j < |r| ensures FirstIndex(ks, r[i]) < FirstIndex(ks, r[j]) {
          assert r[i] in p && r[j] in p;
          FirstIndexAppend(pre, r[i], k);
          FirstIndexAppend(pre, r[j], k);
          assert FirstIndex(pre, p[i]) < FirstIndex(pre, p[j]);
        }
      } else {
        assert r == p + [k];
        assert FirstIndex(ks, k) == |pre|;
        forall i, j | 0 <= i < j < |r| ensures FirstIndex(ks, r[i]) < FirstIndex(ks, r[j]) {
          assert r[i] == p[i] && p[i] in p;
          FirstIndexAppend(pre, r[i], k);
          if j < |p| {
            assert r[j] == p[j] && p[j] in p;
            FirstIndexAppend(pre, r[j], k);
            assert FirstIndex(pre, p[i]) < FirstIndex(pre, p[j]);
          } else {
            assert r[j] == k;
          }
        }
      }
    }
  }

  // ----- the totals -----

  /** The totals list every key once, in first-occurrence order, each with its total weight. */
  lemma TotalsShape<K>(es: seq<Entry<K>>)
    ensures Keys(Totals(es)) == FirstOccurrences(Keys(es))
    ensures Distinct(Keys(Totals(es)))
    ensures forall k :: k in Keys(Totals(es)) <==> k in Keys(es)
    ensures forall i | 0 <= i < |Totals(es)| :: Totals(es)[i].weight == WeightOf(es, Totals(es)[i].key)
  {
    FirstOccurrencesDistinct(Keys(es));
  }

  lemma {:induction false} TotalsForEmpty<K>(d: seq<K>)
    ensures SumWeights(TotalsFor(d, [])) == 0
  {
    if d != [] {
      TotalsForEmpty(d[1..]);
    }
  }

  /** One more entry adds its weight to the total of the key it is under, if D lists it. */
  lemma {:induction false} TotalsForStep<K>(d: seq<K>, es: seq<Entry<K>>, e: Entry<K>)
    requires Distinct(d)
    ensures SumWeights(TotalsFor(d, es + [e])) == SumWeights(TotalsFor(d, es)) + (if e.key in d then e.weight else 0)
  {
    if d != [] {
      assert Distinct(d[1..]) by {
        forall i, j | 0 <= i < j < |d[1..]| ensures d[1..][i] != d[1..][j] {
          assert d[1..][i] == d[i + 1] && d[1..][j] == d[j + 1];
        }
      }
      assert d[0] !in d[1..] by {
        forall j | 0 <= j < |d[1..]| ensures d[1..][j] != d[0] {
          assert d[1..][j] == d[j + 1];
        }
      }
      assert d == [d[0]] + d[1..];
      TotalsForStep(d[1..], es, e);
      WeightAppend(es, e, d[0]);
    }
  }

  lemma {:induction false} TotalsForSum<K>(d: seq<K>, es: seq<Entry<K>>)
    requires Distinct(d)
    requires forall i | 0 <= i < |es| :: es[i].key in d
    ensures SumWeights(TotalsFor(d, es)) == SumWeights(es)
  {
    if es == [] {
      TotalsForEmpty(d);
    } else {
      var p := es[..|es| - 1];
      var e := es[|es| - 1];
      assert es == p + [e];
      TotalsForSum(d, p);
      TotalsForStep(d, p, e);
      SumAppend(p, e);
    }
  }

  /** Counting loses and invents no weight. */
  lemma SumTotals<K>(es: seq<Entry<K>>)
    ensures SumWeights(Totals(es)) == SumWeights(es)
  {
    FirstOccurrencesDistinct(Keys(es));
    forall i | 0 <= i < |es| ensures es[i].key in FirstOccurrences(Keys(es)) {
      assert Keys(es)[i] == es[i].key;
    }
    TotalsForSum(FirstOccurrences(Keys(es)), es);
  }

  /** With every weight 1, a key's total is the number of times it was added. */
  lemma {:induction false} UnitWeights<K>(es: seq<Entry<K>>, k: K)
    requires forall i | 0 <= i < |es| :: es[i].weight == 1
    ensures WeightOf(es, k) == multiset(Keys(es))[k]
  {
    if es != [] {
      assert Keys(es) == [es[0].key] + Keys(es[1..]) by {
        MapConcat([es[0]], es[1..], KeyOf);
        assert es == [es[0]] + es[1..];
      }
      UnitWeights(es[1..], k);
    }
  }

  /** With every weight 1, the total weight is the number of entries. */
  lemma {:induction false} UnitSum<K>(es: seq<Entry<K>>)
    requires forall i | 0 <= i < |es| :: es[i].weight == 1
    ensures SumWeights(es) == |es|
  {
    if es != [] {
      UnitSum(es[1..]);
    }
  }

  // ----- the Map object -----

  /** `Array.from(map.entries())` over the key order and the stored values. */
  function Pairs<K(==)>(order: seq<K>, counts: map<K, nat>): (r: seq<Entry<K>>)
    requires forall i | 0 <= i < |order| :: order[i] in counts
    ensures |r| == |order|
    ensures forall i | 0 <= i < |order| :: r[i] == Entry(order[i], counts[order[i]])
  {
    if order == [] then [] else [Entry(order[0], counts[order[0]])] + Pairs(order[1..], counts)
  }

  /** The Map's state matches a history of counting steps: the keys are exactly the first
      occurrences of what was added, and each value is the total weight added under its key. */
  ghost predicate Counts<K>(order: seq<K>, counts: map<K, nat>, added: seq<Entry<K>>) {
    && order == FirstOccurrences(Keys(added))
    && (forall k | k in counts :: k in order)
    && (forall i | 0 <= i < |order| :: order[i] in counts)
    && (forall k | k in counts :: counts[k] == WeightOf(added, k))
  }

  /** The counting step keeps the state in line with the history. */
  lemma CountStep<K>(order: seq<K>, counts: map<K, nat>, added: seq<Entry<K>>, k: K, w: nat)
    requires Counts(order, counts, added)
    ensures var prev := if k in counts then counts[k] else 0;
      Counts(if k in counts then order else order + [k], counts[k := prev + w], added + [Entry(k, w)])
  {
    var e := Entry(k, w);
    var prev := if k in counts then counts[k] else 0;
    var counts' := counts[k := prev + w];
    var order' := if k in counts then order else order + [k];
    var added' := added + [e];
    assert order' == FirstOccurrences(Keys(added')) by {
      KeysAppend(added, e);
      FirstOccurrencesAppend(Keys(added), k);
    }
    assert forall i | 0 <= i < |order'| :: order'[i] in counts';
    assert k in counts || WeightOf(added, k) == 0 by {
      if k !in counts {
        WeightAbsent(added, k);
      }
    }
    forall x | x in counts' ensures counts'[x] == WeightOf(added', x) {
      WeightAppend(added, e, x);
    }
  }

  /** The Map: its keys in insertion order and the value under each. The ghost history
      records every counting step so far. */
  class Counter<K(==)> {
    var order: seq<K>
    var counts: map<K, nat>
    ghost var added: seq<Entry<K>>

    ghost predicate Valid()
      reads this
    {
      Counts(order, counts, added)
    }

    /** `new Map()`. */
    constructor ()
      ensures Valid() && added == []
    {
      order := [];
      counts := map[];
      added := [];
    }

    /** `map.set(k, (map.get(k) || 0) + w)`: a new key goes last; a known key keeps its place. */
    method Add(k: K, w: nat)
      requires Valid()
      modifies this
      ensures Valid() && added == old(added) + [Entry(k, w)]
      ensures counts == old(counts)[k := (if k in old(counts) then old(counts)[k] else 0) + w]
      ensures order == if k in old(counts) then old(order) else old(order) + [k]
    {
      var prev := if k in counts then counts[k] else 0;
      var order' := if k in counts then order else order + [k];
      CountStep(order, counts, added, k, w);
      order, counts, added := order', counts[k := prev + w], added + [Entry(k, w)];
    }

    /** `Array.from(map.entries())`: the totals of everything added. */
    function Entries(): (r: seq<Entry<K>>)
      reads this
      requires Valid()
      ensures r == Totals(added)
    {
      Pairs(order, counts)
    }
  }
}
