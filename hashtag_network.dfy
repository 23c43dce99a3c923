/** create_hashtag_network: an undirected co-occurrence graph of the (lower-cased) hashtags of
    the tweets that are not retweets, where each pair of positions in a tweet's hashtag list
    adds 1 to the weight of the edge between the two hashtags; then, per node, its count, its
    timestamp range and a label shown only for the most frequent hashtags. */
module HashtagNetwork {
  import opened Prelude
  import opened Graphs
  import opened Tweets
  import opened Visibility

  /** What the loop over tweets fills in: the graph, `htagCount`, `htagMinMaxTs`, and the
      order in which hashtags were first counted (the iteration order of `htagCount`). */
  datatype Tally = Tally(net: Graph, count: map<string, int>, span: map<string, (int, int)>, order: seq<string>)

  const Empty := Tally(map[], map[], map[], [])

  predicate Distinct(s: seq<string>) {
    forall i, j :: 0 <= i < j < |s| ==> s[i] != s[j]
  }

  /** Between tweets: both dictionaries have the same keys, listed once each by `order`, and
      every endpoint of an edge has been counted. */
  predicate Valid(s: Tally) {
    && s.count.Keys == s.span.Keys
    && (forall h :: h in s.count ==> h in s.order)
    && (forall h :: h in s.order ==> h in s.count)
    && Distinct(s.order)
    && (forall e :: e in s.net ==> e <= s.count.Keys)
  }

  /** Lines 378-381: `htagCount[h] += 1`, from 0 for a hashtag not seen before. */
  function CountTag(count: map<string, int>, x: string): map<string, int> {
    count[x := (if x in count then count[x] else 0) + 1]
  }

  function CountAll(count: map<string, int>, h: seq<string>): map<string, int>
    decreases |h|
  {
    if h == [] then count else CountTag(CountAll(count, h[..|h| - 1]), h[|h| - 1])
  }

  /** Lines 380-383: widen the range of x to ts, from `[sys.maxsize, 0]` for a new hashtag. */
  function SpanTag(span: map<string, (int, int)>, x: string, ts: int): map<string, (int, int)> {
    var p := if x in span then span[x] else (MaxSize, 0);
    span[x := (Min(p.0, ts), Max(p.1, ts))]
  }

  function SpanAll(span: map<string, (int, int)>, h: seq<string>, ts: int): map<string, (int, int)>
    decreases |h|
  {
    if h == [] then span else SpanTag(SpanAll(span, h[..|h| - 1], ts), h[|h| - 1], ts)
  }

  /** The dictionary order: a hashtag is appended when it is first counted. */
  function OrderAll(order: seq<string>, count: map<string, int>, h: seq<string>): seq<string>
    decreases |h|
  {
    if h == [] then order
    else
      var n := |h| - 1;
      var o := OrderAll(order, count, h[..n]);
      if h[n] in CountAll(count, h[..n]) then o else o + [h[n]]
  }

  /** The edges position i of h takes part in with the later positions, in order. */
  function Row(h: seq<string>, i: nat): (r: seq<set<string>>)
    requires i < |h|
    ensures |r| == |h| - i - 1
    ensures forall k :: 0 <= k < |r| ==> r[k] == Link(h[i], h[i + 1 + k])
  {
    seq(|h| - i - 1, k requires 0 <= k < |h| - i - 1 => Link(h[i], h[i + 1 + k]))
  }

  /** The rows of the first n positions. */
  function PairsUpTo(h: seq<string>, n: nat): seq<set<string>>
    requires n <= |h|
  {
    if n == 0 then [] else PairsUpTo(h, n - 1) + Row(h, n - 1)
  }

  /** One edge per pair of positions i < j of the hashtag list. */
  function Pairs(h: seq<string>): seq<set<string>> {
    PairsUpTo(h, |h|)
  }

  /** Lines 377-389: what one tweet with hashtags h at time ts does to the dictionaries. */
  function TallyTweet(s: Tally, h: seq<string>, ts: int): Tally {
    Tally(IncAll(s.net, Pairs(h)), CountAll(s.count, h), SpanAll(s.span, h, ts), OrderAll(s.order, s.count, h))
  }

  // ---------------------------------------------------------------- one tweet

  /** Each pair of positions adds one to its edge: the weight of edge e grows by the number of
      pairs i < j with {h[i], h[j]} == e, and e is an edge afterwards exactly when it was one
      or is such a pair. */
  lemma TallyWeights(s: Tally, h: seq<string>, ts: int, e: set<string>)
    ensures WeightOf(TallyTweet(s, h, ts).net, e) == WeightOf(s.net, e) + Occ(Pairs(h), e)
    ensures e in TallyTweet(s, h, ts).net <==> e in s.net || e in Pairs(h)
  {
    IncAllAt(s.net, Pairs(h), e);
  }

  /** The count of x grows by its occurrences in h; a new hashtag starts from 0. */
  lemma {:induction false} CountAllAt(count: map<string, int>, h: seq<string>, x: string)
    ensures x in CountAll(count, h) <==> x in count || x in h
    ensures x in CountAll(count, h) ==>
      CountAll(count, h)[x] == (if x in count then count[x] else 0) + Occ(h, x)
    decreases |h|
  {
    if h != [] {
      var n := |h| - 1;
      CountAllAt(count, h[..n], x);
      assert h == h[..n] + [h[n]];
      OccPositive(h[..n], x);
    }
  }

  /** Counting two lists one after the other is counting their concatenation. */
  lemma {:induction false} CountAllAppend(count: map<string, int>, a: seq<string>, b: seq<string>)
    ensures CountAll(count, a + b) == CountAll(CountAll(count, a), b)
    decreases |b|
  {
    if b != [] {
      var n := |b| - 1;
      assert (a + b)[..|a + b| - 1] == a + b[..n];
      CountAllAppend(count, a, b[..n]);
    } else {
      assert a + b == a;
    }
  }

  /** Afterwards, the range of each hashtag of h is its old range, or (`sys.maxsize`, 0) for a
      new one, widened to ts; no range narrows; the range of a hashtag not in h is unchanged. */
  lemma {:induction false} SpanAllAt(span: map<string, (int, int)>, h: seq<string>, ts: int, x: string)
    ensures x in SpanAll(span, h, ts) <==> x in span || x in h
    ensures x in h ==> SpanAll(span, h, ts)[x].0 <= ts <= SpanAll(span, h, ts)[x].1
    ensures x in span ==>
      SpanAll(span, h, ts)[x].0 <= span[x].0 && SpanAll(span, h, ts)[x].1 >= span[x].1
    ensures x !in h && x in span ==> SpanAll(span, h, ts)[x] == span[x]
    ensures x in h ==>
      var p := if x in span then span[x] else (MaxSize, 0);
      SpanAll(span, h, ts)[x] == (Min(p.0, ts), Max(p.1, ts))
    decreases |h|
  {
    if h != [] {
      var n := |h| - 1;
      SpanAllAt(span, h[..n], ts, x);
      assert h == h[..n] + [h[n]];
      if x in h && x !in h[..n] {
        assert h[n] == x;
      }
    }
  }
  /** Each hashtag of h ends with a range that covers ts. */
  lemma SpanAllCovers(span: map<string, (int, int)>, h: seq<string>, ts: int, x: string)
    requires x in h
    ensures x in SpanAll(span, h, ts)
    ensures SpanAll(span, h, ts)[x].0 <= ts <= SpanAll(span, h, ts)[x].1
  {
    SpanAllAt(span, h, ts, x);
  }


  /** The order lists every counted hashtag once. */
  lemma {:induction false} OrderAllValid(order: seq<string>, count: map<string, int>, h: seq<string>)
    requires Distinct(order) && forall x :: x in order <==> x in count
    ensures Distinct(OrderAll(order, count, h))
    ensures forall x :: x in OrderAll(order, count, h) <==> x in CountAll(count, h)
    decreases |h|
  {
    if h != [] {
      var n := |h| - 1;
      OrderAllValid(order, count, h[..n]);
      forall x ensures x in CountAll(count, h) <==> x in CountAll(count, h[..n]) || x == h[n] {
        CountAllAt(count, h, x);
        CountAllAt(count, h[..n], x);
        assert h == h[..n] + [h[n]];
      }
    }
  }

  /** Every pair of a tweet joins two of its hashtags, and every two positions give a pair. */
  lemma {:induction false} PairsMembers(h: seq<string>, n: nat, e: set<string>)
    requires n <= |h|
    ensures e in PairsUpTo(h, n) <==> exists i, j :: 0 <= i < n && i < j < |h| && e == Link(h[i], h[j])
  {
    if n > 0 {
      PairsMembers(h, n - 1, e);
      var row := Row(h, n - 1);
      if e in row {
        var k :| 0 <= k < |row| && row[k] == e;
        assert e == Link(h[n - 1], h[n + k]);
      }
      if exists i, j :: 0 <= i < n && i < j < |h| && e == Link(h[i], h[j]) {
        var i, j :| 0 <= i < n && i < j < |h| && e == Link(h[i], h[j]);
        if i == n - 1 {
          assert row[j - n] == e;
        }
      }
    }
  }

  /** A tweet with k hashtags has k (k - 1) / 2 pairs: none when k <= 1. */
  lemma {:induction false} PairsLength(h: seq<string>, n: nat)
    requires n <= |h|
    ensures 2 * |PairsUpTo(h, n)| == n * (2 * |h| - n - 1)
  {
    if n > 0 {
      PairsLength(h, n - 1);
    }
  }

  /** A tweet with at most one hashtag adds no edge. */
  lemma SingleTagNoEdge(s: Tally, h: seq<string>, ts: int)
    requires |h| <= 1
    ensures TallyTweet(s, h, ts).net == s.net
  {
    PairsLength(h, |h|);
  }

  /** The pairs of `["a", "b", "a"]`: positions (0, 1), (0, 2) and (1, 2). */
  lemma SelfPairs()
    ensures Pairs(["a", "b", "a"]) == [{"a", "b"}, {"a"}, {"a", "b"}]
  {
    var h := ["a", "b", "a"];
    var ab, aa := Link("a", "b"), Link("a", "a");
    assert aa == {"a"} && Link("b", "a") == ab;
    assert Row(h, 0) == [ab, aa];
    assert Row(h, 1) == [ab];
    assert PairsUpTo(h, 1) == [ab, aa];
    assert PairsUpTo(h, 2) == [ab, aa, ab];
  }

  /** A repeated hashtag pairs with itself: `["a", "b", "a"]` gives a-b weight 2 and a-a
      weight 1. */
  lemma SelfPairExample()
    ensures WeightOf(TallyTweet(Empty, ["a", "b", "a"], 0).net, {"a", "b"}) == 2
    ensures WeightOf(TallyTweet(Empty, ["a", "b", "a"], 0).net, {"a"}) == 1
  {
    var h := ["a", "b", "a"];
    var ab, aa: set<string> := {"a", "b"}, {"a"};
    SelfPairs();
    TallyWeights(Empty, h, 0, ab);
    TallyWeights(Empty, h, 0, aa);
    assert ab != aa;
    assert [ab][..0] == [] && [aa][..0] == [];
    assert Occ([ab], ab) == 1 && Occ([ab], aa) == 0;
    assert Occ([aa], ab) == 0 && Occ([aa], aa) == 1;
    assert [ab, aa, ab] == [ab] + [aa] + [ab];
    OccAppend([ab], [aa], ab);
    OccAppend([ab], [aa], aa);
    OccAppend([ab] + [aa], [ab], ab);
    OccAppend([ab] + [aa], [ab], aa);
  }

  /** ... and counts a twice. */
  lemma SelfPairCount()
    ensures TallyTweet(Empty, ["a", "b", "a"], 0).count == map["a" := 2, "b" := 1]
  {
    var h := ["a", "b", "a"];
    assert h[..2] == ["a", "b"] && h[..2][..1] == ["a"] && h[..2][..1][..0] == [];
    assert CountAll(map[], ["a"]) == map["a" := 1];
    assert CountAll(map[], ["a", "b"]) == map["a" := 1, "b" := 1];
  }

  /** A tweet keeps the dictionaries valid. */
  lemma TallyValid(s: Tally, h: seq<string>, ts: int)
    requires Valid(s)
    ensures Valid(TallyTweet(s, h, ts))
  {
    var r := TallyTweet(s, h, ts);
    OrderAllValid(s.order, s.count, h);
    forall x ensures x in r.count <==> x in r.span {
      CountAllAt(s.count, h, x);
      SpanAllAt(s.span, h, ts, x);
    }
    forall e | e in r.net ensures e <= r.count.Keys {
      TallyWeights(s, h, ts, e);
      forall x | x in e ensures x in r.count {
        CountAllAt(s.count, h, x);
        if e !in s.net {
          PairsMembers(h, |h|, e);
          var i, j :| 0 <= i < |h| && i < j < |h| && e == Link(h[i], h[j]);
        }
      }
    }
  }

  /** Lines 385-389: the inner loop, which links position i to every later position. */
  method LinkRow(net: Graph, h: seq<string>, i: nat) returns (r: Graph)
    requires i < |h|
    ensures r == IncAll(net, Row(h, i))
  {
    r := net;
    ghost var row := Row(h, i);
    for j := i + 1 to |h|
      invariant r == IncAll(net, row[..j - i - 1])
    {
      var e := Link(h[i], h[j]);
      assert row[..j - i] == row[..j - i - 1] + [e];
      if e in r {
        r := r[e := r[e] + 1];
      } else {
        r := r[e := 1];
      }
    }
    assert row[..|h| - i - 1] == row;
  }

  /** Lines 377-383: count one occurrence of tag at ts, creating its entries when new. */
  method CountOne(count: map<string, int>, span: map<string, (int, int)>, order: seq<string>, tag: string, ts: int)
    returns (count': map<string, int>, span': map<string, (int, int)>, order': seq<string>)
    requires count.Keys == span.Keys
    ensures count' == CountTag(count, tag) && span' == SpanTag(span, tag, ts)
    ensures order' == if tag in count then order else order + [tag]
  {
    count', span', order' := count, span, order;
    if tag !in count' {
      count' := count'[tag := 0];
      span' := span'[tag := (MaxSize, 0)];
      order' := order' + [tag];
    }
    count' := count'[tag := count'[tag] + 1];
    span' := span'[tag := (Min(span'[tag].0, ts), span'[tag].1)];
    span' := span'[tag := (span'[tag].0, Max(span'[tag].1, ts))];
  }

  /** One more position extends each of the per-position folds by one step. */
  lemma TallyNext(s: Tally, h: seq<string>, ts: int, i: nat)
    requires i < |h|
    ensures CountAll(s.count, h[..i + 1]) == CountTag(CountAll(s.count, h[..i]), h[i])
    ensures SpanAll(s.span, h[..i + 1], ts) == SpanTag(SpanAll(s.span, h[..i], ts), h[i], ts)
    ensures OrderAll(s.order, s.count, h[..i + 1]) ==
      var o := OrderAll(s.order, s.count, h[..i]);
      if h[i] in CountAll(s.count, h[..i]) then o else o + [h[i]]
  {
    assert h[..i + 1][..i] == h[..i] && h[..i + 1][i] == h[i];
  }

  /** Lines 377-389: the nested loops over one tweet's hashtags. */
  method TallyHashtags(s: Tally, h: seq<string>, ts: int) returns (r: Tally)
    requires s.count.Keys == s.span.Keys
    ensures r == TallyTweet(s, h, ts)
  {
    var net, count, span, order := s.net, s.count, s.span, s.order;
    for i := 0 to |h|
      invariant count.Keys == span.Keys
      invariant net == IncAll(s.net, PairsUpTo(h, i))
      invariant count == CountAll(s.count, h[..i])
      invariant span == SpanAll(s.span, h[..i], ts)
      invariant order == OrderAll(s.order, s.count, h[..i])
    {
      TallyNext(s, h, ts, i);
      count, span, order := CountOne(count, span, order, h[i], ts);
      IncAllAppend(s.net, PairsUpTo(h, i), Row(h, i));
      net := LinkRow(net, h, i);
    }
    assert h[..|h|] == h;
    r := Tally(net, count, span, order);
  }

  // ---------------------------------------------------------------- node attributes

  /** The attributes a node receives. */
  datatype NodeAttrs = NodeAttrs(count: int, tstampMin: int, tstampMax: int, nameViz: string)

  /** What create_hashtag_network returns: the graph with its node attributes. */
  datatype HashtagGraph = HashtagGraph(net: Graph, nodes: map<string, NodeAttrs>)

  /** The counts of the listed hashtags, in the order of the list. */
  function Values(count: map<string, int>, order: seq<string>): (r: seq<int>)
    requires forall h :: h in order ==> h in count
    ensures |r| == |order|
    ensures forall i :: 0 <= i < |r| ==> r[i] == count[order[i]]
  {
    seq(|order|, i requires 0 <= i < |order| => count[order[i]])
  }

  /** `list(htagCount.values())`, in the dictionary's order. */
  function Counts(s: Tally): (r: seq<int>)
    requires forall h :: h in s.order ==> h in s.count
  {
    Values(s.count, s.order)
  }

  /** `htagCount.get(n, 0)`. */
  function CountOf(s: Tally, n: string): int {
    if n in s.count then s.count[n] else 0
  }

  lemma EndsCounted(s: Tally, n: string)
    requires Valid(s) && n in Ends(s.net)
    ensures n in s.count && n in s.span
  {
    var e :| e in s.net && n in e;
  }

  /** Lines 399-406: the attributes of every node; `name_viz` is the hashtag itself when its
      count is strictly above the cut-off, else empty. */
  function Attributes(s: Tally, top: int): map<string, NodeAttrs>
    requires Valid(s)
  {
    assert forall n :: n in Ends(s.net) ==> n in s.span by {
      forall n | n in Ends(s.net) ensures n in s.span {
        EndsCounted(s, n);
      }
    }
    map n | n in Ends(s.net) :: NodeOf(s, n, top)
  }

  /** Lines 400-406: one node's attributes. */
  function NodeOf(s: Tally, n: string, top: int): NodeAttrs
    requires n in s.span
  {
    NodeAttrs(CountOf(s, n), s.span[n].0, s.span[n].1, if CountOf(s, n) > top then n else "")
  }

  /** Lines 394-406: the cut-off, then the node attributes. */
  function Finish(s: Tally): Result<HashtagGraph, Error>
    requires Valid(s)
  {
    match Threshold(Counts(s))
    case Failure(e) => Failure(e)
    case Success(top) => Success(HashtagGraph(s.net, Attributes(s, top)))
  }

  /** The labelled nodes. */
  function Labelled(g: HashtagGraph): set<string> {
    set n | n in g.nodes && g.nodes[n].nameViz != ""
  }

  /** The listed hashtags whose count is above t. */
  function AboveIn(count: map<string, int>, order: seq<string>, t: int): set<string> {
    set n | n in order && n in count && count[n] > t
  }

  /** Over a duplicate-free list of hashtags, the hashtags above t are as many as the counts
      above t. */
  lemma {:induction false} AboveCount(count: map<string, int>, order: seq<string>, t: int)
    requires Distinct(order) && forall h :: h in order ==> h in count
    ensures |AboveIn(count, order, t)| == CountAbove(Values(count, order), t)
    decreases |order|
  {
    if order != [] {
      var rest := order[1..];
      AboveCount(count, rest, t);
      ValuesTail(count, order);
      AboveSplit(count, order, t);
    }
  }

  lemma ValuesTail(count: map<string, int>, order: seq<string>)
    requires order != [] && forall h :: h in order ==> h in count
    ensures Values(count, order[1..]) == Values(count, order)[1..]
    ensures Values(count, order)[0] == count[order[0]]
  {
  }

  /** The head is above t or not; the rest of a duplicate-free list does not hold it. */
  lemma AboveSplit(count: map<string, int>, order: seq<string>, t: int)
    requires order != [] && Distinct(order)
    ensures AboveIn(count, order, t) ==
      AboveIn(count, order[1..], t) + (if order[0] in count && count[order[0]] > t then {order[0]} else {})
    ensures order[0] !in AboveIn(count, order[1..], t)
  {
    var rest := order[1..];
    assert order == [order[0]] + rest;
    forall j | 0 <= j < |rest| ensures rest[j] != order[0] {
      assert rest[j] == order[j + 1];
    }
  }

  /** At most 250 nodes get a label. */
  lemma FinishLabelsAtMost(s: Tally)
    requires Valid(s) && Finish(s).Success?
    ensures |Labelled(Finish(s).value)| <= TopN
  {
    var counts := Counts(s);
    var top := Threshold(counts).value;
    ThresholdSpec(counts);
    AboveCount(s.count, s.order, top);
    var g := Finish(s).value;
    var above := AboveIn(s.count, s.order, top);
    assert Labelled(g) <= above by {
      forall n | n in Labelled(g) ensures n in above {
        EndsCounted(s, n);
      }
    }
    assert |Labelled(g)| <= |above| by {
      SubsetCard(Labelled(g), above);
    }
  }

  lemma SubsetCard(a: set<string>, b: set<string>)
    requires a <= b
    ensures |a| <= |b|
  {
    assert b == a + (b - a);
  }

  /** The cut-off fails, with IndexError, exactly when no hashtag was counted. */
  lemma FinishFails(s: Tally)
    requires Valid(s)
    ensures Finish(s).Failure? <==> s.count == map[]
    ensures Finish(s).Failure? ==> Finish(s).error == EmptyCounts
  {
    ThresholdSpec(Counts(s));
    if s.order != [] {
      assert s.order[0] in s.count;
    }
    if s.count != map[] {
      var h :| h in s.count;
      assert h in s.order;
    }
  }

  /** The nodes are the hashtags on some edge; each carries its count and timestamp range, and
      its label is either empty or the hashtag itself. */
  lemma FinishNodes(s: Tally, n: string)
    requires Valid(s) && Finish(s).Success?
    ensures n in Finish(s).value.nodes <==> n in Ends(s.net)
    ensures n in Finish(s).value.nodes ==>
      var a := Finish(s).value.nodes[n];
      && n in s.count && a.count == s.count[n] && (a.tstampMin, a.tstampMax) == s.span[n]
      && (a.nameViz == "" || a.nameViz == n)
      && (s.count[n] <= Threshold(Counts(s)).value ==> a.nameViz == "")
      && (n != "" ==> (a.nameViz == n <==> s.count[n] > Threshold(Counts(s)).value))
  {
    if n in Ends(s.net) {
      EndsCounted(s, n);
    }
  }

  /** With at most 250 hashtags counted, the cut-off is the count of some hashtag and no
      count is below it. */
  lemma SmallCutoff(s: Tally)
    requires Valid(s) && s.count != map[] && |s.count| <= TopN
    ensures Threshold(Counts(s)).Success?
    ensures exists m :: m in s.count && s.count[m] == Threshold(Counts(s)).value
    ensures forall m :: m in s.count ==> Threshold(Counts(s)).value <= s.count[m]
  {
    var counts := Counts(s);
    var h :| h in s.count;
    assert h in s.order;
    ThresholdSpec(counts);
    var top := Threshold(counts).value;
    assert |counts| <= TopN by {
      OrderLength(s);
    }
    var i :| 0 <= i < |counts| && counts[i] == top;
    assert s.order[i] in s.count;
    forall m | m in s.count ensures top <= s.count[m] {
      var j :| 0 <= j < |s.order| && s.order[j] == m;
      assert counts[j] in counts;
    }
  }

  /** With at most 250 hashtags counted, a node whose count is the smallest of all is
      unlabelled, and a (non-empty) hashtag whose count is not the smallest is labelled. */
  lemma FinishSmallLabels(s: Tally, n: string)
    requires Valid(s) && s.count != map[] && |s.count| <= TopN && n in Ends(s.net)
    ensures Finish(s).Success? && n in Finish(s).value.nodes
    ensures (forall m :: m in s.count ==> s.count[n] <= s.count[m]) ==> Finish(s).value.nodes[n].nameViz == ""
    ensures n != "" && Finish(s).value.nodes[n].nameViz == "" ==> forall m :: m in s.count ==> s.count[n] <= s.count[m]
  {
    FinishFails(s);
    FinishNodes(s, n);
    SmallCutoff(s);
    var top := Threshold(Counts(s)).value;
    var viz := Attributes(s, top)[n].nameViz;
    assert Finish(s).value.nodes[n].nameViz == viz;
    assert viz == if s.count[n] > top then n else "";
    var least :| least in s.count && s.count[least] == top;
    if forall m :: m in s.count ==> s.count[n] <= s.count[m] {
      assert s.count[n] <= s.count[least];
    }
  }

  /** A duplicate-free list of the keys is as long as the map. */
  lemma OrderLength(s: Tally)
    requires Valid(s)
    ensures |s.order| == |s.count|
  {
    DistinctCard(s.order);
    assert (set h | h in s.order) == s.count.Keys;
  }

  lemma {:induction false} DistinctCard(s: seq<string>)
    requires Distinct(s)
    ensures |set h | h in s| == |s|
    decreases |s|
  {
    if s != [] {
      DistinctCard(s[1..]);
      assert (set h | h in s) == (set h | h in s[1..]) + {s[0]};
      assert s[0] !in s[1..];
    }
  }
}
