/** The loop of create_hashtag_network over the tweets, for both input versions, and the node
    attributes it sets once the loop is done. */
module HashtagBuilder {
  import opened Prelude
  import opened Graphs
  import opened Tweets
  import opened Visibility
  import opened HashtagNetwork

  // ---------------------------------------------------------------- version 1

  /** Lines 368-370: a tweet carrying `retweeted_status` is skipped. */
  predicate SkipV1(t: TweetV1) {
    t.retweetedUser.Some?
  }

  /** Lines 368-389: what one version-1 tweet does to the dictionaries. */
  function StepTagsV1(s: Tally, t: TweetV1): Tally {
    if SkipV1(t) then s else TallyTweet(s, LowerAll(t.hashtags), t.timestampMs)
  }

  /** The dictionaries after a run of version-1 tweets, in order. */
  function RunTagsV1(s: Tally, tweets: seq<TweetV1>): Tally
    decreases |tweets|
  {
    if tweets == [] then s else RunTagsV1(StepTagsV1(s, tweets[0]), tweets[1..])
  }

  /** The lower-cased hashtags of the tweets that are counted, one after the other. */
  function TagsV1(tweets: seq<TweetV1>): seq<string>
    decreases |tweets|
  {
    if tweets == [] then []
    else (if SkipV1(tweets[0]) then [] else LowerAll(tweets[0].hashtags)) + TagsV1(tweets[1..])
  }

  /** The hashtag pairs of the tweets that are counted, one after the other. */
  function PairsV1(tweets: seq<TweetV1>): seq<set<string>>
    decreases |tweets|
  {
    if tweets == [] then []
    else (if SkipV1(tweets[0]) then [] else Pairs(LowerAll(tweets[0].hashtags))) + PairsV1(tweets[1..])
  }

  lemma {:induction false} RunTagsV1Valid(s: Tally, tweets: seq<TweetV1>)
    requires Valid(s)
    ensures Valid(RunTagsV1(s, tweets))
    decreases |tweets|
  {
    if tweets != [] {
      if !SkipV1(tweets[0]) {
        TallyValid(s, LowerAll(tweets[0].hashtags), tweets[0].timestampMs);
      }
      RunTagsV1Valid(StepTagsV1(s, tweets[0]), tweets[1..]);
    }
  }

  /** Lines 360-408 for version 1: the graph with its node attributes, or IndexError when no
      hashtag was counted. */
  function HashtagNetworkV1(tweets: seq<TweetV1>): Result<HashtagGraph, Error> {
    RunTagsV1Valid(Empty, tweets);
    Finish(RunTagsV1(Empty, tweets))
  }

  /** The count of every hashtag is its number of occurrences in the counted tweets. */
  lemma {:induction false} RunTagsV1Count(s: Tally, tweets: seq<TweetV1>)
    ensures RunTagsV1(s, tweets).count == CountAll(s.count, TagsV1(tweets))
    decreases |tweets|
  {
    if tweets != [] {
      var first := if SkipV1(tweets[0]) then [] else LowerAll(tweets[0].hashtags);
      RunTagsV1Count(StepTagsV1(s, tweets[0]), tweets[1..]);
      CountAllAppend(s.count, first, TagsV1(tweets[1..]));
      assert StepTagsV1(s, tweets[0]).count == CountAll(s.count, first);
    }
  }

  /** The graph holds one unit of weight per pair of positions in each counted tweet. */
  lemma {:induction false} RunTagsV1Net(s: Tally, tweets: seq<TweetV1>)
    ensures RunTagsV1(s, tweets).net == IncAll(s.net, PairsV1(tweets))
    decreases |tweets|
  {
    if tweets != [] {
      var first := if SkipV1(tweets[0]) then [] else Pairs(LowerAll(tweets[0].hashtags));
      RunTagsV1Net(StepTagsV1(s, tweets[0]), tweets[1..]);
      IncAllAppend(s.net, first, PairsV1(tweets[1..]));
      assert StepTagsV1(s, tweets[0]).net == IncAll(s.net, first);
    }
  }

  /** No timestamp range narrows over a run. */
  lemma {:induction false} RunTagsV1Widens(s: Tally, tweets: seq<TweetV1>, x: string)
    requires x in s.span
    ensures x in RunTagsV1(s, tweets).span
    ensures RunTagsV1(s, tweets).span[x].0 <= s.span[x].0 && RunTagsV1(s, tweets).span[x].1 >= s.span[x].1
    decreases |tweets|
  {
    if tweets != [] {
      if !SkipV1(tweets[0]) {
        SpanAllAt(s.span, LowerAll(tweets[0].hashtags), tweets[0].timestampMs, x);
      }
      RunTagsV1Widens(StepTagsV1(s, tweets[0]), tweets[1..], x);
    }
  }

  /** The range of a hashtag covers the timestamp of every counted tweet that carries it. */
  lemma {:induction false} RunTagsV1Covers(s: Tally, tweets: seq<TweetV1>, k: nat, x: string)
    requires k < |tweets| && !SkipV1(tweets[k]) && x in LowerAll(tweets[k].hashtags)
    ensures x in RunTagsV1(s, tweets).span
    ensures RunTagsV1(s, tweets).span[x].0 <= tweets[k].timestampMs <= RunTagsV1(s, tweets).span[x].1
    decreases |tweets|
  {
    var s' := StepTagsV1(s, tweets[0]);
    if k == 0 {
      SpanAllCovers(s.span, LowerAll(tweets[0].hashtags), tweets[0].timestampMs, x);
      RunTagsV1Widens(s', tweets[1..], x);
    } else {
      RunTagsV1Covers(s', tweets[1..], k - 1, x);
    }
  }

  /** With no hashtag in any counted tweet, the cut-off raises IndexError; otherwise a graph is
      returned. */
  lemma HashtagNetworkV1Fails(tweets: seq<TweetV1>)
    ensures HashtagNetworkV1(tweets).Failure? <==> TagsV1(tweets) == []
    ensures HashtagNetworkV1(tweets).Failure? ==> HashtagNetworkV1(tweets).error == EmptyCounts
  {
    var s := RunTagsV1(Empty, tweets);
    RunTagsV1Valid(Empty, tweets);
    FinishFails(s);
    RunTagsV1Count(Empty, tweets);
    if TagsV1(tweets) != [] {
      CountAllAt(map[], TagsV1(tweets), TagsV1(tweets)[0]);
    } else {
      assert s.count == map[];
    }
  }

  /** The program's main loop over version-1 tweets. */
  method CreateHashtagNetworkV1(tweets: seq<TweetV1>) returns (r: Result<HashtagGraph, Error>)
    ensures r == HashtagNetworkV1(tweets)
  {
    var s := Empty;
    for i := 0 to |tweets|
      invariant Valid(s)
      invariant RunTagsV1(s, tweets[i..]) == RunTagsV1(Empty, tweets)
    {
      var t := tweets[i];
      assert tweets[i..] == [t] + tweets[i + 1..];
      if !SkipV1(t) {
        TallyValid(s, LowerAll(t.hashtags), t.timestampMs);
        s := TallyHashtags(s, LowerAll(t.hashtags), t.timestampMs);
      }
    }
    RunTagsV1Valid(Empty, tweets);
    r := FinishNetwork(s);
  }

  // ---------------------------------------------------------------- version 2

  /** Lines 413-418: a tweet whose first reference is a retweet is skipped. */
  predicate SkipV2(t: TweetV2) {
    References(t, Retweeted)
  }

  /** Lines 413-441: what one version-2 tweet does to the dictionaries. `data.entities` must
      be present (KeyError otherwise); a tweet whose entities have no `hashtags` is skipped. */
  function StepTagsV2(s: Tally, t: TweetV2): Result<Tally, Error> {
    if SkipV2(t) then Success(s)
    else if t.entities.None? then Failure(MissingKey("entities"))
    else if t.entities.value.hashtags.None? then Success(s)
    else Success(TallyTweet(s, LowerAll(t.entities.value.hashtags.value), t.createdAt))
  }

  /** The dictionaries after a run of version-2 tweets, or the first error. */
  function RunTagsV2(s: Tally, tweets: seq<TweetV2>): Result<Tally, Error>
    decreases |tweets|
  {
    if tweets == [] then Success(s)
    else
      match StepTagsV2(s, tweets[0])
      case Failure(e) => Failure(e)
      case Success(s') => RunTagsV2(s', tweets[1..])
  }

  /** The hashtags a version-2 tweet contributes. */
  function TagsOfV2(t: TweetV2): seq<string> {
    if SkipV2(t) || t.entities.None? || t.entities.value.hashtags.None? then []
    else LowerAll(t.entities.value.hashtags.value)
  }

  function TagsV2(tweets: seq<TweetV2>): seq<string>
    decreases |tweets|
  {
    if tweets == [] then [] else TagsOfV2(tweets[0]) + TagsV2(tweets[1..])
  }

  /** A version-2 tweet that the loop reads past the retweet check but that has no entities. */
  predicate LacksEntities(t: TweetV2) {
    !SkipV2(t) && t.entities.None?
  }

  lemma {:induction false} RunTagsV2Valid(s: Tally, tweets: seq<TweetV2>)
    requires Valid(s)
    ensures RunTagsV2(s, tweets).Success? ==> Valid(RunTagsV2(s, tweets).value)
    decreases |tweets|
  {
    if tweets != [] {
      var t := tweets[0];
      if !SkipV2(t) && t.entities.Some? && t.entities.value.hashtags.Some? {
        TallyValid(s, LowerAll(t.entities.value.hashtags.value), t.createdAt);
      }
      if StepTagsV2(s, t).Success? {
        RunTagsV2Valid(StepTagsV2(s, t).value, tweets[1..]);
      }
    }
  }

  /** Lines 409-456 for version 2. */
  function HashtagNetworkV2(tweets: seq<TweetV2>): Result<HashtagGraph, Error> {
    RunTagsV2Valid(Empty, tweets);
    match RunTagsV2(Empty, tweets)
    case Failure(e) => Failure(e)
    case Success(s) => Finish(s)
  }

  /** The run stops with KeyError exactly when some tweet that is not a retweet has no entities;
      otherwise the count of every hashtag is its number of occurrences. */
  lemma {:induction false} RunTagsV2Outcome(s: Tally, tweets: seq<TweetV2>)
    ensures RunTagsV2(s, tweets).Failure? <==> exists k :: 0 <= k < |tweets| && LacksEntities(tweets[k])
    ensures RunTagsV2(s, tweets).Failure? ==> RunTagsV2(s, tweets).error == MissingKey("entities")
    ensures RunTagsV2(s, tweets).Success? ==> RunTagsV2(s, tweets).value.count == CountAll(s.count, TagsV2(tweets))
    decreases |tweets|
  {
    if tweets != [] {
      var t := tweets[0];
      if LacksEntities(t) {
        assert LacksEntities(tweets[0]);
      } else {
        var s' := StepTagsV2(s, t).value;
        assert s'.count == CountAll(s.count, TagsOfV2(t));
        RunTagsV2Outcome(s', tweets[1..]);
        CountAllAppend(s.count, TagsOfV2(t), TagsV2(tweets[1..]));
        if exists k :: 0 <= k < |tweets| && LacksEntities(tweets[k]) {
          var k :| 0 <= k < |tweets| && LacksEntities(tweets[k]);
          assert tweets[1..][k - 1] == tweets[k];
        }
        if exists k :: 0 <= k < |tweets[1..]| && LacksEntities(tweets[1..][k]) {
          var k :| 0 <= k < |tweets[1..]| && LacksEntities(tweets[1..][k]);
          assert tweets[k + 1] == tweets[1..][k];
        }
      }
    }
  }

  /** No timestamp range narrows over a successful version-2 run. */
  lemma {:induction false} RunTagsV2Widens(s: Tally, tweets: seq<TweetV2>, x: string)
    requires x in s.span && RunTagsV2(s, tweets).Success?
    ensures x in RunTagsV2(s, tweets).value.span
    ensures RunTagsV2(s, tweets).value.span[x].0 <= s.span[x].0
    ensures RunTagsV2(s, tweets).value.span[x].1 >= s.span[x].1
    decreases |tweets|
  {
    if tweets != [] {
      var t := tweets[0];
      SpanAllAt(s.span, TagsOfV2(t), t.createdAt, x);
      RunTagsV2Widens(StepTagsV2(s, t).value, tweets[1..], x);
    }
  }

  /** After a successful version-2 run, the range of a hashtag covers the `created_at` of
      every counted tweet that carries it. */
  lemma {:induction false} RunTagsV2Covers(s: Tally, tweets: seq<TweetV2>, k: nat, x: string)
    requires RunTagsV2(s, tweets).Success?
    requires k < |tweets| && x in TagsOfV2(tweets[k])
    ensures x in RunTagsV2(s, tweets).value.span
    ensures RunTagsV2(s, tweets).value.span[x].0 <= tweets[k].createdAt <= RunTagsV2(s, tweets).value.span[x].1
    decreases |tweets|
  {
    var t := tweets[0];
    var s' := StepTagsV2(s, t).value;
    if k == 0 {
      assert s'.span == SpanAll(s.span, TagsOfV2(t), t.createdAt);
      SpanAllCovers(s.span, TagsOfV2(t), t.createdAt, x);
      RunTagsV2Widens(s', tweets[1..], x);
    } else {
      RunTagsV2Covers(s', tweets[1..], k - 1, x);
    }
  }

  function PairsV2(tweets: seq<TweetV2>): seq<set<string>>
    decreases |tweets|
  {
    if tweets == [] then [] else Pairs(TagsOfV2(tweets[0])) + PairsV2(tweets[1..])
  }

  /** A successful run holds one unit of weight per pair of positions in each counted tweet. */
  lemma {:induction false} RunTagsV2Net(s: Tally, tweets: seq<TweetV2>)
    requires RunTagsV2(s, tweets).Success?
    ensures RunTagsV2(s, tweets).value.net == IncAll(s.net, PairsV2(tweets))
    decreases |tweets|
  {
    if tweets != [] {
      var t := tweets[0];
      var s' := StepTagsV2(s, t).value;
      if TagsOfV2(t) == [] {
        assert s'.net == s.net;
        assert Pairs([]) == [];
      }
      assert s'.net == IncAll(s.net, Pairs(TagsOfV2(t)));
      RunTagsV2Net(s', tweets[1..]);
      IncAllAppend(s.net, Pairs(TagsOfV2(t)), PairsV2(tweets[1..]));
    }
  }

  /** Version 2 fails with KeyError on a tweet without entities, and otherwise with IndexError
      exactly when no hashtag was counted. */
  lemma HashtagNetworkV2Fails(tweets: seq<TweetV2>)
    ensures (exists k :: 0 <= k < |tweets| && LacksEntities(tweets[k])) ==>
      HashtagNetworkV2(tweets) == Failure(MissingKey("entities"))
    ensures (forall k :: 0 <= k < |tweets| ==> !LacksEntities(tweets[k])) ==>
      (HashtagNetworkV2(tweets).Failure? <==> TagsV2(tweets) == [])
    ensures (forall k :: 0 <= k < |tweets| ==> !LacksEntities(tweets[k])) && TagsV2(tweets) == [] ==>
      HashtagNetworkV2(tweets) == Failure(EmptyCounts)
  {
    RunTagsV2Outcome(Empty, tweets);
    if RunTagsV2(Empty, tweets).Success? {
      var s := RunTagsV2(Empty, tweets).value;
      RunTagsV2Valid(Empty, tweets);
      FinishFails(s);
      if TagsV2(tweets) != [] {
        CountAllAt(map[], TagsV2(tweets), TagsV2(tweets)[0]);
      } else {
        assert s.count == map[];
      }
    }
  }

  /** The program's main loop over version-2 tweets. */
  method CreateHashtagNetworkV2(tweets: seq<TweetV2>) returns (r: Result<HashtagGraph, Error>)
    ensures r == HashtagNetworkV2(tweets)
  {
    var s := Empty;
    for i := 0 to |tweets|
      invariant Valid(s)
      invariant RunTagsV2(s, tweets[i..]) == RunTagsV2(Empty, tweets)
    {
      var t := tweets[i];
      assert tweets[i..] == [t] + tweets[i + 1..];
      if SkipV2(t) {
        continue;
      }
      if t.entities.None? {
        RunTagsV2Valid(Empty, tweets);
        return Failure(MissingKey("entities"));
      }
      if t.entities.value.hashtags.None? {
        continue;
      }
      var htags := LowerAll(t.entities.value.hashtags.value);
      TallyValid(s, htags, t.createdAt);
      s := TallyHashtags(s, htags, t.createdAt);
    }
    RunTagsV2Valid(Empty, tweets);
    r := FinishNetwork(s);
  }

  // ---------------------------------------------------------------- node attributes

  /** Lines 394-406 (and 442-454): the cut-off, then the loop over the nodes of the graph. */
  method FinishNetwork(s: Tally) returns (r: Result<HashtagGraph, Error>)
    requires Valid(s)
    ensures r == Finish(s)
  {
    var top := TopCount(SortDesc(Counts(s)));
    if top.Failure? {
      return Failure(top.error);
    }
    var attrs := LabelNodes(s, top.value);
    r := Success(HashtagGraph(s.net, attrs));
  }

  /** Lines 395-398: `topList`, read from the counts sorted in decreasing order. It fails
      exactly on an empty list; otherwise it is one of the counts, at most 250 counts exceed it,
      at least 251 reach it when there are more than 250, and it is the smallest count when
      there are at most 250. */
  method TopCount(values: seq<int>) returns (r: Result<int, Error>)
    requires Descending(values)
    ensures r == Cutoff(values)
    ensures r.Failure? <==> values == []
    ensures r.Success? ==> r.value in values && CountAbove(values, r.value) <= TopN
    ensures r.Success? && |values| > TopN ==> CountReaching(values, r.value, false) > TopN
    ensures r.Success? && |values| <= TopN ==> forall v :: v in values ==> r.value <= v
  {
    if |values| > TopN {
      r := Success(values[TopN]);
      DescendingAbove(values, TopN);
      DescendingAtLeast(values, TopN);
    } else if |values| == 0 {
      r := Failure(EmptyCounts);
    } else {
      r := Success(values[|values| - 1]);
      DescendingAbove(values, |values| - 1);
      forall v | v in values ensures r.value <= v {
        DescendingLast(values, v);
      }
    }
  }

  /** Lines 399-406: the loop over the nodes of the graph. */
  method LabelNodes(s: Tally, top: int) returns (attrs: map<string, NodeAttrs>)
    requires Valid(s)
    ensures attrs == Attributes(s, top)
  {
    var nodes := Ends(s.net);
    attrs := map[];
    var todo := nodes;
    while todo != {}
      invariant todo <= nodes
      invariant attrs.Keys == nodes - todo
      invariant forall n :: n in attrs ==> n in s.span && attrs[n] == NodeOf(s, n, top)
      decreases |todo|
    {
      var n :| n in todo;
      EndsCounted(s, n);
      attrs := attrs[n := NodeOf(s, n, top)];
      todo := todo - {n};
    }
    ghost var want := Attributes(s, top);
    assert attrs.Keys == want.Keys;
    assert forall n :: n in attrs ==> attrs[n] == want[n];
  }
}
