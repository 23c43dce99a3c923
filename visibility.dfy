/** The label cut-off of create_hashtag_network: the hashtag counts sorted in decreasing order,
    and the value against which a node's count must be strictly greater for the node to get
    a visible label: the 251st largest count, or the smallest when there are at most 250. */
module Visibility {
  import opened Prelude

  /** How many hashtags may get a label. */
  const TopN: nat := 250

  predicate Descending(s: seq<int>) {
    forall i, j :: 0 <= i < j < |s| ==> s[i] >= s[j]
  }

  /** Insert x into a decreasing sequence. */
  function Insert(s: seq<int>, x: int): (r: seq<int>)
    requires Descending(s)
    ensures Descending(r)
    ensures multiset(r) == multiset(s) + multiset{x}
    decreases |s|
  {
    if s == [] || x >= s[0] then
      DescendingCons(x, s);
      [x] + s
    else
      var rest := Insert(s[1..], x);
      assert s == [s[0]] + s[1..];
      assert forall i :: 0 <= i < |rest| ==> rest[i] <= s[0] by {
        forall i | 0 <= i < |rest| ensures rest[i] <= s[0] {
          assert rest[i] in multiset(rest);
          if rest[i] != x {
            assert rest[i] in multiset(s[1..]);
          }
        }
      }
      DescendingCons(s[0], rest);
      [s[0]] + rest
  }

  /** A head no smaller than the rest keeps a decreasing sequence decreasing. */
  lemma DescendingCons(x: int, s: seq<int>)
    requires Descending(s) && forall i :: 0 <= i < |s| ==> s[i] <= x
    ensures Descending([x] + s)
  {
    var r := [x] + s;
    forall i, j | 0 <= i < j < |r| ensures r[i] >= r[j] {
      assert r[j] == s[j - 1];
      if i > 0 {
        assert r[i] == s[i - 1];
      }
    }
  }

  /** `sorted(values, reverse=True)`: a decreasing permutation of s. */
  function SortDesc(s: seq<int>): (r: seq<int>)
    ensures Descending(r)
    ensures multiset(r) == multiset(s)
    decreases |s|
  {
    if s == [] then []
    else
      assert s == [s[0]] + s[1..];
      Insert(SortDesc(s[1..]), s[0])
  }

  /** x > t when strict, x >= t otherwise. */
  predicate Reaches(x: int, t: int, strict: bool) {
    if strict then x > t else x >= t
  }

  /** How many entries of s exceed t (strict) or reach it (not strict). */
  function CountReaching(s: seq<int>, t: int, strict: bool): (r: nat)
    ensures r <= |s|
    decreases |s|
  {
    if s == [] then 0 else (if Reaches(s[0], t, strict) then 1 else 0) + CountReaching(s[1..], t, strict)
  }

  /** How many entries of s exceed t. */
  function CountAbove(s: seq<int>, t: int): nat {
    CountReaching(s, t, true)
  }

  lemma {:induction false} InsertCount(s: seq<int>, x: int, t: int, strict: bool)
    requires Descending(s)
    ensures CountReaching(Insert(s, x), t, strict) == CountReaching(s, t, strict) + (if Reaches(x, t, strict) then 1 else 0)
    decreases |s|
  {
    if s != [] && x < s[0] {
      InsertCount(s[1..], x, t, strict);
      assert ([s[0]] + Insert(s[1..], x))[1..] == Insert(s[1..], x);
    } else {
      assert ([x] + s)[1..] == s;
    }
  }

  /** Sorting does not change how many values exceed or reach t. */
  lemma {:induction false} SortDescCount(s: seq<int>, t: int, strict: bool)
    ensures CountReaching(SortDesc(s), t, strict) == CountReaching(s, t, strict)
    decreases |s|
  {
    if s != [] {
      SortDescCount(s[1..], t, strict);
      InsertCount(SortDesc(s[1..]), s[0], t, strict);
    }
  }

  /** In a decreasing sequence, at most k entries exceed the entry at position k. */
  lemma {:induction false} DescendingAbove(s: seq<int>, k: nat)
    requires Descending(s) && k < |s|
    ensures CountAbove(s, s[k]) <= k
    decreases |s|
  {
    if k == 0 {
      NoneAbove(s, s[0]);
    } else {
      assert s[1..][k - 1] == s[k];
      DescendingAbove(s[1..], k - 1);
    }
  }

  lemma {:induction false} NoneAbove(s: seq<int>, t: int)
    requires forall i :: 0 <= i < |s| ==> s[i] <= t
    ensures CountAbove(s, t) == 0
    decreases |s|
  {
    if s != [] {
      NoneAbove(s[1..], t);
    }
  }

  /** In a decreasing sequence, at least k + 1 entries reach the entry at position k. */
  lemma {:induction false} DescendingAtLeast(s: seq<int>, k: nat)
    requires Descending(s) && k < |s|
    ensures CountReaching(s, s[k], false) >= k + 1
    decreases |s|
  {
    if k > 0 {
      assert s[1..][k - 1] == s[k];
      DescendingAtLeast(s[1..], k - 1);
    }
  }

  /** `topList`, read from the sorted values: position 250 when there are more than 250 of
      them, else the last one, which raises IndexError on an empty list. */
  function Cutoff(values: seq<int>): Result<int, Error> {
    if |values| > TopN then Success(values[TopN])
    else if |values| == 0 then Failure(EmptyCounts)   // `values[-1]` with no hashtag at all
    else Success(values[|values| - 1])
  }

  /** The cut-off of a list of counts. */
  function Threshold(counts: seq<int>): Result<int, Error> {
    Cutoff(SortDesc(counts))
  }

  lemma SortDescLength(s: seq<int>)
    ensures |SortDesc(s)| == |s|
  {
    assert |SortDesc(s)| == |multiset(SortDesc(s))| == |multiset(s)| == |s|;
  }

  /** Every position of the sorted list holds one of the counts, and conversely. */
  lemma SortDescMembers(s: seq<int>, v: int)
    ensures v in SortDesc(s) <==> v in s
  {
    assert v in SortDesc(s) <==> v in multiset(SortDesc(s));
    assert v in s <==> v in multiset(s);
  }

  /** The last entry of a decreasing sequence is its minimum. */
  lemma DescendingLast(s: seq<int>, v: int)
    requires Descending(s) && s != [] && v in s
    ensures s[|s| - 1] <= v
  {
    var i :| 0 <= i < |s| && s[i] == v;
  }

  /** The cut-off fails exactly on an empty list; otherwise it is one of the counts, at most 250
      counts exceed it, and it is the smallest count when there are at most 250. */
  lemma ThresholdSpec(counts: seq<int>)
    ensures Threshold(counts).Failure? <==> counts == []
    ensures Threshold(counts).Success? ==> Threshold(counts).value in counts
    ensures Threshold(counts).Success? ==> CountAbove(counts, Threshold(counts).value) <= TopN
    ensures 0 < |counts| <= TopN ==> forall v :: v in counts ==> Threshold(counts).value <= v
  {
    var sorted := SortDesc(counts);
    SortDescLength(counts);
    if sorted != [] {
      var k := if |sorted| > TopN then TopN else |sorted| - 1;
      var t := sorted[k];
      assert Threshold(counts) == Success(t);
      SortDescMembers(counts, t);
      SortDescCount(counts, t, true);
      DescendingAbove(sorted, k);
      if |counts| <= TopN {
        forall v | v in counts ensures t <= v {
          SortDescMembers(counts, v);
          DescendingLast(sorted, v);
        }
      }
    }
  }

  /** With more than 250 counts, the cut-off is the 251st largest: at least 251 counts reach
      it. */
  lemma ThresholdRank(counts: seq<int>)
    requires |counts| > TopN
    ensures Threshold(counts).Success?
    ensures CountReaching(counts, Threshold(counts).value, false) > TopN
  {
    var sorted := SortDesc(counts);
    SortDescLength(counts);
    assert Threshold(counts) == Success(sorted[TopN]);
    DescendingAtLeast(sorted, TopN);
    SortDescCount(counts, sorted[TopN], false);
  }
}
