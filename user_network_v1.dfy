/** create_user_interaction_network for version-1 (Twitter API v1.1) tweets: an edge from the
    retweeted author to the retweeter, from the quoted author to the quoter, and from the
    author to each mentioned user and to the user replied to, each with a weight and one
    counter per kind; plus the per-user property table. */
module UserNetworkV1 {
  import opened Prelude
  import opened Graphs
  import opened Tweets
  import opened UserGraph

  /** The handle of the tweet's author, lower-cased. */
  function Uid(t: TweetV1): string {
    Lower(ScreenName(t.user))
  }

  function MentionNames(ms: seq<UserV1>): (r: seq<string>)
    ensures |r| == |ms|
    ensures forall i :: 0 <= i < |ms| ==> r[i] == Lower(ScreenName(ms[i]))
  {
    seq(|ms|, i requires 0 <= i < |ms| => Lower(ScreenName(ms[i])))
  }

  predicate RetweetPhase(t: TweetV1, sel: Selector) {
    Retweet in sel && t.retweetedUser.Some?
  }

  predicate QuotePhase(t: TweetV1, sel: Selector) {
    Quote in sel && t.quotedUser.Some?
  }

  /** Mentions are read only from tweets that are not retweets. */
  predicate MentionPhase(t: TweetV1, sel: Selector) {
    Mention in sel && t.retweetedUser.None?
  }

  /** A reply with at least one mention. */
  predicate ReplyPhase(t: TweetV1, sel: Selector) {
    Reply in sel && t.inReplyToUserId.Some? && |t.userMentions| > 0
  }

  /** The users whose rows the tweet updates, in the order the source appends them. */
  function UsersV1(t: TweetV1, sel: Selector): seq<UserV1> {
    [t.user]
    + (if RetweetPhase(t, sel) then [t.retweetedUser.value] else [])
    + (if QuotePhase(t, sel) then [t.quotedUser.value] else [])
    + (if MentionPhase(t, sel) then t.userMentions else [])
  }

  function AfterRetweet(s: UserState, t: TweetV1, sel: Selector): UserState {
    if RetweetPhase(t, sel) then
      var rid := Lower(ScreenName(t.retweetedUser.value));
      s.(net := Record(s.net, rid, Uid(t), Retweet), rid := Some(rid))
    else s
  }

  function AfterQuote(s: UserState, t: TweetV1, sel: Selector): UserState {
    if QuotePhase(t, sel) then
      var qid := Lower(ScreenName(t.quotedUser.value));
      s.(net := Record(s.net, qid, Uid(t), Quote), qid := Some(qid))
    else s
  }

  /** `mid` ends on the last mention; with no mention it keeps its value from earlier tweets. */
  function AfterMentions(s: UserState, t: TweetV1, sel: Selector): UserState {
    if MentionPhase(t, sel) then
      var names := MentionNames(t.userMentions);
      s.(net := MentionEdges(s.net, Uid(t), names),
         mid := if names == [] then s.mid else Some(names[|names| - 1]))
    else s
  }

  /** The graph and locals once the retweet, quote and mention phases of t have run. */
  function BeforeReply(s: UserState, t: TweetV1, sel: Selector): UserState {
    AfterMentions(AfterQuote(AfterRetweet(s, t, sel), t, sel), t, sel)
  }

  /** The reply edge as written: the source tests the edge to the FIRST mention, `repid`,
      but then writes the edge to `mid`, which holds the last mention of this tweet, or of an
      earlier tweet, or is unbound. An existing `(uid, mid)` is bumped; otherwise `add_edge`
      creates or OVERWRITES it with weight 0 and reply 1. */
  function ReplyEdgeV1(g: DiGraph, uid: string, repid: string, mid: Option<string>): Result<DiGraph, Error> {
    if mid.None? then Failure(UnboundLocal("mid"))        // latent defect: mid may be unbound
    else if (uid, repid) in g then
      if (uid, mid.value) in g then Success(g[(uid, mid.value) := Bump(g[(uid, mid.value)], Reply)])
      else Failure(MissingEdge(uid, mid.value))         // latent defect: KeyError on edges[uid, mid]
    else
      Success(g[(uid, mid.value) := Counters(0, 0, 0, 0, 1)])  // latent defect: weight 0, overwrite
  }

  function AfterReply(s: UserState, t: TweetV1, sel: Selector): Result<UserState, Error> {
    if !ReplyPhase(t, sel) then Success(s)
    else
      match ReplyEdgeV1(s.net, Uid(t), Lower(ScreenName(t.userMentions[0])), s.mid)
      case Failure(e) => Failure(e)
      case Success(g) => Success(s.(net := g))
  }

  /** One iteration of the loop over tweets. */
  function StepV1(s: UserState, t: TweetV1, sel: Selector): Result<UserState, Error> {
    match AfterReply(BeforeReply(s, t, sel), t, sel)
    case Failure(e) => Failure(e)
    case Success(s') => Success(s'.(userProp := SightAllV1(s'.userProp, UsersV1(t, sel), t.timestampMs)))
  }

  /** The loop over tweets from state s; the first exception ends the pass. */
  function RunV1(s: UserState, tweets: seq<TweetV1>, sel: Selector): Result<UserState, Error>
    decreases |tweets|
  {
    if tweets == [] then Success(s)
    else
      match StepV1(s, tweets[0], sel)
      case Failure(e) => Failure(e)
      case Success(s') => RunV1(s', tweets[1..], sel)
  }

  /** Lines 143-160: the loop over the mentions of one tweet. */
  method RecordMentions(net: DiGraph, uid: string, ms: seq<UserV1>, mid: Option<string>)
    returns (net': DiGraph, mid': Option<string>)
    ensures net' == MentionEdges(net, uid, MentionNames(ms))
    ensures mid' == if ms == [] then mid else Some(Lower(ScreenName(ms[|ms| - 1])))
  {
    ghost var names := MentionNames(ms);
    net', mid' := net, mid;
    for i := 0 to |ms|
      invariant net' == MentionEdges(net, uid, names[..i])
      invariant mid' == if i == 0 then mid else Some(names[i - 1])
    {
      var n := Lower(ScreenName(ms[i]));
      mid' := Some(n);
      MentionEdgesNext(net, uid, names, i);
      net' := AddInteraction(net', uid, n, Mention);
    }
    assert names[..|names|] == names;
  }

  /** Lines 161-176: the reply edge. */
  method RecordReplyV1(net: DiGraph, uid: string, repid: string, mid: Option<string>) returns (r: Result<DiGraph, Error>)
    ensures r == ReplyEdgeV1(net, uid, repid, mid)
  {
    if (uid, repid) in net {
      if mid.None? {
        return Failure(UnboundLocal("mid"));
      }
      var e := (uid, mid.value);
      if e !in net {
        return Failure(MissingEdge(uid, mid.value));
      }
      return Success(net[e := net[e].(weight := net[e].weight + 1, reply := net[e].reply + 1)]);
    } else {
      if mid.None? {
        return Failure(UnboundLocal("mid"));
      }
      return Success(net[(uid, mid.value) := Counters(0, 0, 0, 0, 1)]);
    }
  }

  /** Lines 117-130: the retweet phase. */
  method RetweetStepV1(s: UserState, t: TweetV1, sel: Selector, uid: string) returns (s': UserState)
    requires uid == Uid(t)
    ensures s' == AfterRetweet(s, t, sel)
  {
    s' := s;
    if Retweet in sel && t.retweetedUser.Some? {
      var r := Lower(ScreenName(t.retweetedUser.value));
      var g := AddInteraction(s.net, r, uid, Retweet);
      s' := s.(net := g, rid := Some(r));
    }
  }

  /** Lines 131-142: the quote phase. */
  method QuoteStepV1(s: UserState, t: TweetV1, sel: Selector, uid: string) returns (s': UserState)
    requires uid == Uid(t)
    ensures s' == AfterQuote(s, t, sel)
  {
    s' := s;
    if Quote in sel && t.quotedUser.Some? {
      var q := Lower(ScreenName(t.quotedUser.value));
      var g := AddInteraction(s.net, q, uid, Quote);
      s' := s.(net := g, qid := Some(q));
    }
  }

  /** Lines 143-160: the mention phase, skipped for retweets. */
  method MentionStepV1(s: UserState, t: TweetV1, sel: Selector, uid: string) returns (s': UserState)
    requires uid == Uid(t)
    ensures s' == AfterMentions(s, t, sel)
  {
    s' := s;
    if Mention in sel && t.retweetedUser.None? {
      var g, m := RecordMentions(s.net, uid, t.userMentions, s.mid);
      s' := s.(net := g, mid := m);
    }
  }

  /** Lines 113-160: the retweet, quote and mention phases, and the users they collect. */
  method InteractionsV1(s: UserState, t: TweetV1, sel: Selector) returns (s': UserState, users: seq<UserV1>)
    ensures s' == BeforeReply(s, t, sel)
    ensures users == UsersV1(t, sel)
  {
    users := [t.user];
    var uid := Lower(ScreenName(t.user));
    if Retweet in sel && t.retweetedUser.Some? {
      users := users + [t.retweetedUser.value];
    }
    ghost var u1 := users;
    assert u1 == [t.user] + (if RetweetPhase(t, sel) then [t.retweetedUser.value] else []);
    var s1 := RetweetStepV1(s, t, sel, uid);
    if Quote in sel && t.quotedUser.Some? {
      users := users + [t.quotedUser.value];
    }
    ghost var u2 := users;
    assert u2 == u1 + (if QuotePhase(t, sel) then [t.quotedUser.value] else []);
    var s2 := QuoteStepV1(s1, t, sel, uid);
    if Mention in sel && t.retweetedUser.None? {
      users := users + t.userMentions;
    }
    assert users == u2 + (if MentionPhase(t, sel) then t.userMentions else []);
    s' := MentionStepV1(s2, t, sel, uid);
  }


  /** Lines 111-200: one tweet. */
  method ProcessTweetV1(s: UserState, t: TweetV1, sel: Selector) returns (r: Result<UserState, Error>)
    ensures r == StepV1(s, t, sel)
  {
    var s', users := InteractionsV1(s, t, sel);
    if Reply in sel && t.inReplyToUserId.Some? && |t.userMentions| > 0 {
      var g := RecordReplyV1(s'.net, Uid(t), Lower(ScreenName(t.userMentions[0])), s'.mid);
      if g.Failure? {
        return Failure(g.error);
      }
      s' := s'.(net := g.value);
    }
    var props := RegisterUsersV1(s'.userProp, users, t.timestampMs);
    return Success(s'.(userProp := props));
  }

  /** Lines 103-200 and 357 for `version == 1`: the loop over the tweets. Returns the graph
      and the property table, or the exception that ended the pass. */
  method CreateUserInteractionNetworkV1(tweets: seq<TweetV1>, sel: Selector) returns (r: Result<UserNetwork, Error>)
    ensures r == Output(RunV1(Initial, tweets, sel))
  {
    var s := Initial;
    for i := 0 to |tweets|
      invariant RunV1(s, tweets[i..], sel) == RunV1(Initial, tweets, sel)
    {
      assert tweets[i..][0] == tweets[i] && tweets[i..][1..] == tweets[i + 1..];
      var step := ProcessTweetV1(s, tweets[i], sel);
      if step.Failure? {
        return Failure(step.error);
      }
      s := step.value;
    }
    return Success(UserNetwork(s.net, s.userProp));
  }

  // ---------------------------------------------------------------- properties

  /** How much a tweet adds to the retweet counter of e: one for (retweeted author, author). */
  function RetweetDelta(t: TweetV1, sel: Selector, e: (string, string)): int {
    if RetweetPhase(t, sel) && e == (Lower(ScreenName(t.retweetedUser.value)), Uid(t)) then 1 else 0
  }

  function QuoteDelta(t: TweetV1, sel: Selector, e: (string, string)): int {
    if QuotePhase(t, sel) && e == (Lower(ScreenName(t.quotedUser.value)), Uid(t)) then 1 else 0
  }

  /** One per mention of e.1 by the author e.0. */
  function MentionDelta(t: TweetV1, sel: Selector, e: (string, string)): int {
    if MentionPhase(t, sel) && e.0 == Uid(t) then Occ(MentionNames(t.userMentions), e.1) else 0
  }

  /** Without a reply phase, a tweet cannot fail, and each edge's counters grow by exactly the
      interactions of the tweet along it: the weight by their total, each kind counter by its
      own, the reply counter not at all. */
  lemma StepV1At(s: UserState, t: TweetV1, sel: Selector, e: (string, string))
    requires !ReplyPhase(t, sel)
    ensures StepV1(s, t, sel).Success?
    ensures Get(StepV1(s, t, sel).value.net, e).retweet == Get(s.net, e).retweet + RetweetDelta(t, sel, e)
    ensures Get(StepV1(s, t, sel).value.net, e).quote == Get(s.net, e).quote + QuoteDelta(t, sel, e)
    ensures Get(StepV1(s, t, sel).value.net, e).mention == Get(s.net, e).mention + MentionDelta(t, sel, e)
    ensures Get(StepV1(s, t, sel).value.net, e).reply == Get(s.net, e).reply
    ensures Get(StepV1(s, t, sel).value.net, e).weight
      == Get(s.net, e).weight + RetweetDelta(t, sel, e) + QuoteDelta(t, sel, e) + MentionDelta(t, sel, e)
  {
    var s1 := AfterRetweet(s, t, sel);
    var s2 := AfterQuote(s1, t, sel);
    if RetweetPhase(t, sel) {
      RecordAt(s.net, Lower(ScreenName(t.retweetedUser.value)), Uid(t), Retweet, e);
    }
    if QuotePhase(t, sel) {
      RecordAt(s1.net, Lower(ScreenName(t.quotedUser.value)), Uid(t), Quote, e);
    }
    if MentionPhase(t, sel) {
      MentionEdgesAt(s2.net, Uid(t), MentionNames(t.userMentions), e);
    }
  }

  /** Without a reply phase, the edges after a tweet are those before, plus the retweet edge,
      the quote edge and one mention edge per mentioned user. */
  lemma StepV1Edges(s: UserState, t: TweetV1, sel: Selector, e: (string, string))
    requires !ReplyPhase(t, sel)
    ensures StepV1(s, t, sel).Success?
    ensures e in StepV1(s, t, sel).value.net <==>
      e in s.net || RetweetDelta(t, sel, e) > 0 || QuoteDelta(t, sel, e) > 0 || MentionDelta(t, sel, e) > 0
  {
    var s2 := AfterQuote(AfterRetweet(s, t, sel), t, sel);
    if MentionPhase(t, sel) {
      MentionEdgesKeys(s2.net, Uid(t), MentionNames(t.userMentions));
      OccPositive(MentionNames(t.userMentions), e.1);
    }
  }

  /** Without a reply phase, a tweet keeps every weight equal to the sum of its counters. */
  lemma StepV1Balanced(s: UserState, t: TweetV1, sel: Selector)
    requires Balanced(s.net)
    requires !ReplyPhase(t, sel)
    ensures StepV1(s, t, sel).Success? && Balanced(StepV1(s, t, sel).value.net)
  {
    var s1 := AfterRetweet(s, t, sel);
    var s2 := AfterQuote(s1, t, sel);
    if RetweetPhase(t, sel) {
      RecordBalanced(s.net, Lower(ScreenName(t.retweetedUser.value)), Uid(t), Retweet);
    }
    if QuotePhase(t, sel) {
      RecordBalanced(s1.net, Lower(ScreenName(t.quotedUser.value)), Uid(t), Quote);
    }
    if MentionPhase(t, sel) {
      MentionEdgesBalanced(s2.net, Uid(t), MentionNames(t.userMentions));
    }
  }

  /** When mentions are recorded for the same tweet, a reply never fails: it bumps the weight
      and reply counter of the edge to the LAST mention (not the first, `repid`) and no other
      edge, so the weights stay balanced. */
  lemma StepV1ReplyAfterMentions(s: UserState, t: TweetV1, sel: Selector, e: (string, string))
    requires ReplyPhase(t, sel) && MentionPhase(t, sel)
    ensures StepV1(s, t, sel).Success?
    ensures var g, last := BeforeReply(s, t, sel).net, Lower(ScreenName(t.userMentions[|t.userMentions| - 1]));
      Get(StepV1(s, t, sel).value.net, e) == if e == (Uid(t), last) then Bump(Get(g, e), Reply) else Get(g, e)
    ensures StepV1(s, t, sel).value.net.Keys == BeforeReply(s, t, sel).net.Keys
    ensures Balanced(s.net) ==> Balanced(StepV1(s, t, sel).value.net)
  {
    ReplyBumpsLast(s, t, sel);
    if Balanced(s.net) {
      StepV1BalancedBeforeReply(s, t, sel);
      var r := StepV1(s, t, sel).value.net;
      forall f | f in r ensures Consistent(r[f]) {
        assert r[f] == Get(r, f);
      }
    }
  }
  /** After recorded mentions, the reply step is one bump of the edge to the last mention,
      which already exists. */
  lemma ReplyBumpsLast(s: UserState, t: TweetV1, sel: Selector)
    requires ReplyPhase(t, sel) && MentionPhase(t, sel)
    ensures var g, last := BeforeReply(s, t, sel).net, (Uid(t), Lower(ScreenName(t.userMentions[|t.userMentions| - 1])));
      && last in g
      && StepV1(s, t, sel).Success?
      && StepV1(s, t, sel).value.net == g[last := Bump(g[last], Reply)]
  {
    var s2 := AfterQuote(AfterRetweet(s, t, sel), t, sel);
    var names := MentionNames(t.userMentions);
    var g := BeforeReply(s, t, sel).net;
    MentionEdgesKeys(s2.net, Uid(t), names);
    assert names[0] in names && names[|names| - 1] in names;
    assert (Uid(t), names[0]) in g && (Uid(t), names[|names| - 1]) in g;
  }


  /** The retweet, quote and mention phases keep the weights balanced. */
  lemma StepV1BalancedBeforeReply(s: UserState, t: TweetV1, sel: Selector)
    requires Balanced(s.net)
    ensures Balanced(BeforeReply(s, t, sel).net)
  {
    var s1 := AfterRetweet(s, t, sel);
    var s2 := AfterQuote(s1, t, sel);
    if RetweetPhase(t, sel) {
      RecordBalanced(s.net, Lower(ScreenName(t.retweetedUser.value)), Uid(t), Retweet);
    }
    if QuotePhase(t, sel) {
      RecordBalanced(s1.net, Lower(ScreenName(t.quotedUser.value)), Uid(t), Quote);
    }
    if MentionPhase(t, sel) {
      MentionEdgesBalanced(s2.net, Uid(t), MentionNames(t.userMentions));
    }
  }

  /** Lines 163-176 as written: when the edge to the first mention is missing and `mid` still
      holds a handle m, the edge (author, m) is created or overwritten with counters
      (0, 0, 0, 0, 1), which breaks the weight = sum-of-counters invariant. */
  lemma StepV1ReplyOverwrites(s: UserState, t: TweetV1, sel: Selector, m: string)
    requires ReplyPhase(t, sel)
    requires BeforeReply(s, t, sel).mid == Some(m)
    requires (Uid(t), Lower(ScreenName(t.userMentions[0]))) !in BeforeReply(s, t, sel).net
    ensures StepV1(s, t, sel).Success?
    ensures StepV1(s, t, sel).value.net == BeforeReply(s, t, sel).net[(Uid(t), m) := Counters(0, 0, 0, 0, 1)]
    ensures !Balanced(StepV1(s, t, sel).value.net)
  {
    var r := StepV1(s, t, sel).value.net;
    assert (Uid(t), m) in r && !Consistent(r[(Uid(t), m)]);
  }

  /** `mid` is never assigned while mentions are not selected. */
  lemma StepV1KeepsMid(s: UserState, t: TweetV1, sel: Selector)
    requires Mention !in sel
    requires StepV1(s, t, sel).Success?
    ensures StepV1(s, t, sel).value.mid == s.mid
  {
  }

  /** With replies but not mentions selected, `mid` is never bound, so the first reply with a
      mention ends the whole pass with UnboundLocalError. */
  lemma {:induction false} RunV1ReplyWithoutMentionsFails(s: UserState, tweets: seq<TweetV1>, sel: Selector, i: nat)
    requires Mention !in sel && s.mid.None?
    requires i < |tweets| && ReplyPhase(tweets[i], sel)
    ensures RunV1(s, tweets, sel) == Failure(UnboundLocal("mid"))
    decreases |tweets|
  {
    StepV1NoMidFails(s, tweets[0], sel);
    if StepV1(s, tweets[0], sel).Success? {
      assert i != 0;
      StepV1KeepsMid(s, tweets[0], sel);
      RunV1ReplyWithoutMentionsFails(StepV1(s, tweets[0], sel).value, tweets[1..], sel, i - 1);
    }
  }

  /** Without mentions selected and with `mid` never assigned, a step fails only on the reply,
      and then with the unbound `mid`; it always fails when it would record a reply. */
  lemma StepV1NoMidFails(s: UserState, t: TweetV1, sel: Selector)
    requires Mention !in sel && s.mid.None?
    ensures StepV1(s, t, sel).Failure? <==> ReplyPhase(t, sel)
    ensures StepV1(s, t, sel).Failure? ==> StepV1(s, t, sel) == Failure(UnboundLocal("mid"))
  {
    assert BeforeReply(s, t, sel).mid == s.mid;
  }

  /** Without replies selected, a pass never fails, and every edge weight is the sum of its
      four counters. */
  lemma {:induction false} RunV1Balanced(s: UserState, tweets: seq<TweetV1>, sel: Selector)
    requires Reply !in sel && Balanced(s.net)
    ensures RunV1(s, tweets, sel).Success? && Balanced(RunV1(s, tweets, sel).value.net)
    decreases |tweets|
  {
    if tweets != [] {
      StepV1Balanced(s, tweets[0], sel);
      RunV1Balanced(StepV1(s, tweets[0], sel).value, tweets[1..], sel);
    }
  }

  /** After a tweet, the row of each user it names covers the tweet's timestamp. */
  lemma StepV1Covers(s: UserState, t: TweetV1, sel: Selector)
    requires StepV1(s, t, sel).Success?
    ensures forall u :: u in UsersV1(t, sel) ==> Covers(StepV1(s, t, sel).value.userProp, Lower(ScreenName(u)), t.timestampMs)
  {
    var s' := AfterReply(BeforeReply(s, t, sel), t, sel).value;
    SightAllV1Covers(s'.userProp, UsersV1(t, sel), t.timestampMs);
  }

  /** Later tweets never narrow a row's range. */
  lemma {:induction false} SightAllV1KeepsCover(props: PropTable, users: seq<UserV1>, ts: int, name: string, ts': int)
    requires Covers(props, name, ts')
    ensures Covers(SightAllV1(props, users, ts), name, ts')
    decreases |users|
  {
    if users != [] {
      SightAllV1KeepsCover(props, users[..|users| - 1], ts, name, ts');
      SightV1KeepsCover(SightAllV1(props, users[..|users| - 1], ts), users[|users| - 1], ts, name, ts');
    }
  }

  lemma {:induction false} RunV1KeepsCover(s: UserState, tweets: seq<TweetV1>, sel: Selector, name: string, ts: int)
    requires Covers(s.userProp, name, ts)
    requires RunV1(s, tweets, sel).Success?
    ensures Covers(RunV1(s, tweets, sel).value.userProp, name, ts)
    decreases |tweets|
  {
    if tweets != [] {
      var t := tweets[0];
      var s' := AfterReply(BeforeReply(s, t, sel), t, sel).value;
      SightAllV1KeepsCover(s'.userProp, UsersV1(t, sel), t.timestampMs, name, ts);
      RunV1KeepsCover(StepV1(s, t, sel).value, tweets[1..], sel, name, ts);
    }
  }

  /** At the end of a pass, every user named by a tweet has a row whose range covers that
      tweet's timestamp: `tstamp_min` and `tstamp_max` bound all the user's sightings. */
  lemma {:induction false} RunV1Covers(s: UserState, tweets: seq<TweetV1>, sel: Selector, i: nat, u: UserV1)
    requires RunV1(s, tweets, sel).Success?
    requires i < |tweets| && u in UsersV1(tweets[i], sel)
    ensures Covers(RunV1(s, tweets, sel).value.userProp, Lower(ScreenName(u)), tweets[i].timestampMs)
    decreases |tweets|
  {
    var s' := StepV1(s, tweets[0], sel).value;
    if i == 0 {
      StepV1Covers(s, tweets[0], sel);
      RunV1KeepsCover(s', tweets[1..], sel, Lower(ScreenName(u)), tweets[0].timestampMs);
    } else {
      RunV1Covers(s', tweets[1..], sel, i - 1, u);
    }
  }

  /** A retweet by alice of a tweet by bob, with every kind selected, gives one edge from bob
      to alice with weight 1 and retweet 1. */
  lemma RetweetExample()
    ensures var alice := map["screen_name" := Str("Alice"), "id_str" := Str("1")];
      var bob := map["screen_name" := Str("bob"), "id_str" := Str("2")];
      var t := TweetV1(1000, alice, Some(bob), None, None, [], []);
      var r := RunV1(Initial, [t], {Retweet, Quote, Mention, Reply});
      r.Success? && r.value.net == map[("bob", "alice") := Counters(1, 1, 0, 0, 0)]
  {
    var alice: UserV1 := map["screen_name" := Str("Alice"), "id_str" := Str("1")];
    var bob: UserV1 := map["screen_name" := Str("bob"), "id_str" := Str("2")];
    assert Lower("Alice") == "alice";
    assert Lower("bob") == "bob";
    var t := TweetV1(1000, alice, Some(bob), None, None, [], []);
    var sel: Selector := {Retweet, Quote, Mention, Reply};
    var s1 := AfterRetweet(Initial, t, sel);
    assert s1.net == map[("bob", "alice") := Counters(1, 1, 0, 0, 0)];
    assert BeforeReply(Initial, t, sel) == s1;
    assert StepV1(Initial, t, sel).Success? && StepV1(Initial, t, sel).value.net == s1.net;
    assert [t][1..] == [];
  }
}
