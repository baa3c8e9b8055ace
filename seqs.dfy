/** Generic sequence operations standing for JavaScript's Array.prototype.filter and
    Array.prototype.map, with the facts the rest of the model needs about them. */
module Seqs {

  /** The elements of s appear in t in the same order, possibly with gaps. */
  ghost predicate IsSubseq<T>(s: seq<T>, t: seq<T>)
    decreases |t|
  {
    s == [] || (t != [] && ((s[0] == t[0] && IsSubseq(s[1..], t[1..])) || IsSubseq(s, t[1..])))
  }

  /** No element occurs twice. */
  ghost predicate Distinct<T>(s: seq<T>) {
    forall i, j | 0 <= i < j < |s| :: s[i] != s[j]
  }

  /** Array.prototype.filter: the elements satisfying p, in their original order. */
  function Filter<T>(s: seq<T>, p: T -> bool): (r: seq<T>)
    ensures |r| <= |s|
    ensures IsSubseq(r, s)
    ensures forall x | x in r :: x in s && p(x)
    ensures forall x | x in s && p(x) :: x in r
  {
    if s == [] then []
    else
      assert s == [s[0]] + s[1..];
      var rest := Filter(s[1..], p);
      if p(s[0]) then
        assert ([s[0]] + rest)[1..] == rest;
        [s[0]] + rest
      else rest
  }

  /** One step of the filter. */
  lemma FilterCons<T>(x: T, s: seq<T>, p: T -> bool)
    ensures Filter([x] + s, p) == if p(x) then [x] + Filter(s, p) else Filter(s, p)
  {
    assert ([x] + s)[0] == x && ([x] + s)[1..] == s;
  }

  /** Filtering keeps every occurrence of an accepted element and none of a rejected one. */
  lemma {:induction false} FilterMultiset<T>(s: seq<T>, p: T -> bool)
    ensures forall x :: multiset(Filter(s, p))[x] == if p(x) then multiset(s)[x] else 0
  {
    if s != [] {
      FilterMultiset(s[1..], p);
      assert s == [s[0]] + s[1..];
    }
  }

  /** A filter that rejects something is shorter than its input. */
  lemma {:induction false} FilterShrinks<T>(s: seq<T>, p: T -> bool, x: T)
    requires x in s && !p(x)
    ensures |Filter(s, p)| < |s|
  {
    if s[0] != x {
      FilterShrinks(s[1..], p, x);
    }
  }

  /** Array.prototype.map. */
  function MapSeq<T, U>(s: seq<T>, f: T -> U): (r: seq<U>)
    ensures |r| == |s|
    ensures forall i :: 0 <= i < |s| ==> r[i] == f(s[i])
  {
    if s == [] then [] else [f(s[0])] + MapSeq(s[1..], f)
  }

  /** Mapping distributes over concatenation. */
  lemma MapConcat<T, U>(a: seq<T>, b: seq<T>, f: T -> U)
    ensures MapSeq(a + b, f) == MapSeq(a, f) + MapSeq(b, f)
  {
    assert forall i :: 0 <= i < |a + b| ==> MapSeq(a + b, f)[i] == (MapSeq(a, f) + MapSeq(b, f))[i];
  }

  /** Mapping a prefix one element longer adds that element's image. */
  lemma MapSnoc<T, U>(s: seq<T>, i: nat, f: T -> U)
    requires i < |s|
    ensures MapSeq(s[..i + 1], f) == MapSeq(s[..i], f) + [f(s[i])]
  {
    assert s[..i + 1] == s[..i] + [s[i]];
    MapConcat(s[..i], [s[i]], f);
  }

  /** The same, after a fixed prefix. */
  lemma MapPrefixSnoc<T, U>(pre: seq<T>, s: seq<T>, j: nat, f: T -> U)
    requires j < |s|
    ensures MapSeq(pre + s[..j + 1], f) == MapSeq(pre + s[..j], f) + [f(s[j])]
  {
    assert pre + s[..j + 1] == (pre + s[..j]) + [s[j]];
    MapConcat(pre + s[..j], [s[j]], f);
  }

  /** A filter that rejects nothing returns its input. */
  lemma {:induction false} FilterKeepsAll<T>(s: seq<T>, p: T -> bool)
    requires forall x :: x in s ==> p(x)
    ensures Filter(s, p) == s
  {
    if s != [] {
      assert forall x :: x in s[1..] ==> x in s;
      FilterKeepsAll(s[1..], p);
    }
  }

  /** Filtering distributes over concatenation. */
  lemma {:induction false} FilterConcat<T>(a: seq<T>, b: seq<T>, p: T -> bool)
    ensures Filter(a + b, p) == Filter(a, p) + Filter(b, p)
  {
    if a == [] {
      assert a + b == b;
    } else {
      var ab := a + b;
      assert ab[0] == a[0] && ab[1..] == a[1..] + b;
      FilterConcat(a[1..], b, p);
      var fa, fb, fr := Filter(a[1..], p), Filter(b, p), Filter(ab[1..], p);
      assert fr == fa + fb;
      if p(a[0]) {
        calc {
          Filter(ab, p);
          [a[0]] + fr;
          [a[0]] + (fa + fb);
          ([a[0]] + fa) + fb;
          Filter(a, p) + fb;
        }
      } else {
        calc {
          Filter(ab, p);
          fr;
          Filter(a, p) + fb;
        }
      }
    }
  }

  lemma {:induction false} SubseqRefl<T>(s: seq<T>)
    ensures IsSubseq(s, s)
  {
    if s != [] {
      SubseqRefl(s[1..]);
    }
  }

  lemma {:induction false} SubseqEmpty<T>(t: seq<T>)
    ensures IsSubseq([], t)
  {
  }

  /** Every element of a subsequence is an element of the whole. */
  lemma {:induction false} SubseqMembers<T>(s: seq<T>, t: seq<T>)
    requires IsSubseq(s, t)
    ensures forall x :: x in s ==> x in t
    decreases |t|
  {
    if s != [] {
      assert t != [];
      if s[0] == t[0] && IsSubseq(s[1..], t[1..]) {
        SubseqMembers(s[1..], t[1..]);
        assert forall x :: x in s ==> x == s[0] || x in s[1..];
      } else {
        SubseqMembers(s, t[1..]);
      }
    }
  }

  /** A longer sequence after the prefix keeps a subsequence. */
  lemma {:induction false} SubseqDropFront<T>(s: seq<T>, t: seq<T>, pre: seq<T>)
    requires IsSubseq(s, t)
    ensures IsSubseq(s, pre + t)
    decreases |pre|
  {
    if pre == [] {
      assert pre + t == t;
    } else {
      SubseqDropFront(s, t, pre[1..]);
      var u := pre + t;
      assert u != [] && u[1..] == pre[1..] + t;
      assert IsSubseq(s, u[1..]);
      assert IsSubseq(s, u);
    }
  }

  /** Subsequences concatenate. */
  lemma {:induction false} SubseqConcat<T>(a: seq<T>, b: seq<T>, c: seq<T>, d: seq<T>)
    requires IsSubseq(a, b) && IsSubseq(c, d)
    ensures IsSubseq(a + c, b + d)
    decreases |b|
  {
    if a == [] {
      SubseqDropFront(c, d, b);
      assert a + c == c;
    } else {
      assert b != [];
      assert (b + d)[1..] == b[1..] + d;
      if a[0] == b[0] && IsSubseq(a[1..], b[1..]) {
        SubseqConcat(a[1..], b[1..], c, d);
        assert (a + c)[1..] == a[1..] + c;
      } else {
        SubseqConcat(a, b[1..], c, d);
      }
    }
  }

  /** Mapping preserves the subsequence relation. */
  lemma {:induction false} SubseqMap<T, U>(s: seq<T>, t: seq<T>, f: T -> U)
    requires IsSubseq(s, t)
    ensures IsSubseq(MapSeq(s, f), MapSeq(t, f))
    decreases |t|
  {
    if s == [] {
      assert MapSeq(s, f) == [];
    } else {
      assert t != [];
      if s[0] == t[0] && IsSubseq(s[1..], t[1..]) {
        SubseqMap(s[1..], t[1..], f);
      } else {
        SubseqMap(s, t[1..], f);
      }
    }
  }

  /** A subsequence of a sequence without repeats has no repeats. */
  lemma {:induction false} SubseqDistinct<T>(s: seq<T>, t: seq<T>)
    requires IsSubseq(s, t) && Distinct(t)
    ensures Distinct(s)
    decreases |t|
  {
    if s != [] {
      assert t != [];
      assert Distinct(t[1..]) by {
        forall i, j | 0 <= i < j < |t[1..]| ensures t[1..][i] != t[1..][j] {
          assert t[1..][i] == t[i + 1] && t[1..][j] == t[j + 1];
        }
      }
      if s[0] == t[0] && IsSubseq(s[1..], t[1..]) {
        SubseqDistinct(s[1..], t[1..]);
        SubseqMembers(s[1..], t[1..]);
        assert t[0] !in t[1..] by {
          forall j | 0 <= j < |t[1..]| ensures t[1..][j] != t[0] {
            assert t[1..][j] == t[j + 1];
          }
        }
        forall i, j | 0 <= i < j < |s| ensures s[i] != s[j] {
          assert s[j] == s[1..][j - 1];
          if i > 0 {
            assert s[i] == s[1..][i - 1];
          }
        }
      } else {
        SubseqDistinct(s, t[1..]);
      }
    }
  }

  /** Concatenation has no repeats exactly when neither part has and they share nothing. */
  lemma DistinctConcat<T>(a: seq<T>, b: seq<T>)
    ensures Distinct(a + b) <==> Distinct(a) && Distinct(b) && forall x :: x in a ==> x !in b
  {
    if Distinct(a + b) {
      forall i, j | 0 <= i < j < |a| ensures a[i] != a[j] {
        assert a[i] == (a + b)[i] && a[j] == (a + b)[j];
      }
      forall i, j | 0 <= i < j < |b| ensures b[i] != b[j] {
        assert b[i] == (a + b)[|a| + i] && b[j] == (a + b)[|a| + j];
      }
      forall i, j | 0 <= i < |a| && 0 <= j < |b| ensures a[i] != b[j] {
        assert (a + b)[i] == a[i] && (a + b)[|a| + j] == b[j];
      }
    }
    if Distinct(a) && Distinct(b) && forall x :: x in a ==> x !in b {
      forall i, j | 0 <= i < j < |a + b| ensures (a + b)[i] != (a + b)[j] {
        if j < |a| {
          assert (a + b)[i] == a[i] && (a + b)[j] == a[j];
        } else if i >= |a| {
          assert (a + b)[i] == b[i - |a|] && (a + b)[j] == b[j - |a|];
        } else {
          assert (a + b)[i] == a[i] && (a + b)[j] == b[j - |a|];
          assert a[i] in a && b[j - |a|] in b;
        }
      }
    }
  }
}
