/** create_user_interaction_network for version-2 (Twitter API v2) tweets. A retweet, quote
    or reply is resolved through `includes.tweets` (the referenced tweet's `author_id`) and
    `includes.users` (that author's handle); mentions come from `data.entities.mentions`. */
module UserNetworkV2 {
  import opened Prelude
  import opened Graphs
  import opened Tweets
  import opened UserGraph

  /** The handle of the tweet's author, `includes.users[0]`, lower-cased. */
  function Uid(t: TweetV2): string {
    Lower(t.author.username)
  }

  /** The position of the first included tweet with the given id, |ts| when there is none. */
  function FirstTweet(ts: seq<IncludedTweet>, id: string): (r: nat)
    ensures r <= |ts|
    ensures r < |ts| ==> ts[r].id == id
    ensures forall j :: 0 <= j < r ==> ts[j].id != id
    decreases |ts|
  {
    if ts == [] then 0
    else if ts[0].id == id then 0
    else 1 + FirstTweet(ts[1..], id)
  }

  /** The position of the first user whose id is `main`, |us| when there is none (always so
      for None: no user id is None). */
  function FirstUser(us: seq<UserV2>, main: Option<string>): (r: nat)
    ensures r <= |us|
    ensures r < |us| ==> main == Some(us[r].id)
    ensures forall j :: 0 <= j < r ==> main != Some(us[j].id)
    decreases |us|
  {
    if us == [] then 0
    else if main == Some(us[0].id) then 0
    else 1 + FirstUser(us[1..], main)
  }

  /** `main_user_id`: the author of the first included tweet with the referenced id. */
  function MainUserId(ts: seq<IncludedTweet>, id: string): Option<string> {
    var k := FirstTweet(ts, id);
    if k < |ts| then Some(ts[k].authorId) else None
  }

  /** The first included user whose id is `main_user_id`, if any. */
  function MainUser(t: TweetV2, ts: seq<IncludedTweet>): Option<UserV2>
    requires t.referencedTweets.Some? && |t.referencedTweets.value| != 0
  {
    var us := IncludedUsers(t);
    var k := FirstUser(us, MainUserId(ts, ReferencedId(t)));
    if k < |us| then Some(us[k]) else None
  }

  function KindOf(k: ReferenceType): EdgeKind {
    match k
    case Retweeted => Retweet
    case Quoted => Quote
    case RepliedTo => Reply
  }

  /** The phase for reference type k runs: its kind is selected and the first referenced
      tweet has type k. */
  predicate Fires(t: TweetV2, sel: Selector, k: ReferenceType) {
    KindOf(k) in sel && References(t, k)
  }

  /** The phase is resolved against `includes.tweets`, which is present. */
  predicate Resolves(t: TweetV2, sel: Selector, k: ReferenceType) {
    Fires(t, sel, k) && t.includedTweets.Some?
  }

  /** The local a phase assigns: `rid` for retweets, `qid` for quotes AND replies. */
  function VarName(k: ReferenceType): string {
    if k == Retweeted then "rid" else "qid"
  }

  function Var(s: UserState, k: ReferenceType): Option<string> {
    if k == Retweeted then s.rid else s.qid
  }

  function SetVar(s: UserState, k: ReferenceType, v: string): UserState {
    if k == Retweeted then s.(rid := Some(v)) else s.(qid := Some(v))
  }

  /** The edge a phase writes from the referenced author a to the author b. A new reply edge
      is created with `retweet=1` as well as `reply=1` under weight 1 (a latent defect). */
  function ReferenceEdge(g: DiGraph, a: string, b: string, k: ReferenceType): DiGraph {
    if k == RepliedTo && (a, b) !in g then g[(a, b) := Counters(1, 1, 0, 0, 1)]
    else Record(g, a, b, KindOf(k))
  }

  /** One reference phase. When the referenced author cannot be resolved, the local keeps its
      value from an earlier tweet, or is unbound (both latent defects). */
  function AfterReference(s: UserState, t: TweetV2, sel: Selector, k: ReferenceType): Result<UserState, Error> {
    if !Resolves(t, sel, k) then Success(s)
    else
      var mu := MainUser(t, t.includedTweets.value);
      var s1 := if mu.Some? then SetVar(s, k, Lower(mu.value.username)) else s;
      if Var(s1, k).None? then Failure(UnboundLocal(VarName(k)))
      else Success(s1.(net := ReferenceEdge(s1.net, Var(s1, k).value, Uid(t), k)))
  }

  /** The user a reference phase appends, if it resolves one. */
  function ResolvedUser(t: TweetV2, sel: Selector, k: ReferenceType): seq<UserV2> {
    if Resolves(t, sel, k) && MainUser(t, t.includedTweets.value).Some? then
      [MainUser(t, t.includedTweets.value).value]
    else []
  }

  /** Mentions are read only when `referenced_tweets` is absent. */
  predicate MentionPhase(t: TweetV2, sel: Selector) {
    Mention in sel && t.referencedTweets.None?
  }

  function MentionList(t: TweetV2, sel: Selector): seq<UserV2> {
    if MentionPhase(t, sel) && t.entities.Some? && t.entities.value.mentions.Some? then
      t.entities.value.mentions.value
    else []
  }

  function Names(ms: seq<UserV2>): (r: seq<string>)
    ensures |r| == |ms|
    ensures forall i :: 0 <= i < |ms| ==> r[i] == Lower(ms[i].username)
  {
    seq(|ms|, i requires 0 <= i < |ms| => Lower(ms[i].username))
  }

  /** The mention phase: `data.entities` must be present; `mentions` may be absent. */
  function AfterMentions(s: UserState, t: TweetV2, sel: Selector): Result<UserState, Error> {
    if !MentionPhase(t, sel) then Success(s)
    else if t.entities.None? then Failure(MissingKey("entities"))
    else
      var names := Names(MentionList(t, sel));
      Success(s.(net := MentionEdges(s.net, Uid(t), names),
                 mid := if names == [] then s.mid else Some(names[|names| - 1])))
  }

  /** The four phases of one tweet, in the source's order; the first exception wins. */
  function Interactions(s: UserState, t: TweetV2, sel: Selector): Result<UserState, Error> {
    match AfterReference(s, t, sel, Retweeted)
    case Failure(e) => Failure(e)
    case Success(s1) =>
      match AfterReference(s1, t, sel, Quoted)
      case Failure(e) => Failure(e)
      case Success(s2) =>
        match AfterReference(s2, t, sel, RepliedTo)
        case Failure(e) => Failure(e)
        case Success(s3) => AfterMentions(s3, t, sel)
  }

  /** The users whose rows the tweet updates, in the order the source appends them. */
  function UsersV2(t: TweetV2, sel: Selector): seq<UserV2> {
    [t.author] + ResolvedUser(t, sel, Retweeted) + ResolvedUser(t, sel, Quoted)
    + ResolvedUser(t, sel, RepliedTo) + MentionList(t, sel)
  }

  /** The handle of the last user of the tweet: the only row whose range is widened. */
  function LastName(t: TweetV2, sel: Selector): string {
    var us := UsersV2(t, sel);
    Lower(us[|us| - 1].username)
  }

  /** One iteration of the loop over tweets. */
  function StepV2(s: UserState, t: TweetV2, sel: Selector): Result<UserState, Error> {
    match Interactions(s, t, sel)
    case Failure(e) => Failure(e)
    case Success(s') => Success(s'.(userProp := SightAndWiden(s'.userProp, UsersV2(t, sel), t.createdAt)))
  }

  /** Lines 333-355: every user is sighted, but only the LAST one's range is widened, because
      the widening sits after the loop and reads its variable `uname` (a latent defect). */
  function SightAndWiden(props: PropTable, users: seq<UserV2>, ts: int): PropTable
    requires |users| > 0
  {
    var name := Lower(users[|users| - 1].username);
    SightAllV2Ranges(props, users, name);
    SightAllV2Keys(props, users, name);
    assert users[|users| - 1] in users;
    Widen(SightAllV2(props, users), name, ts)
  }

  function RunV2(s: UserState, tweets: seq<TweetV2>, sel: Selector): Result<UserState, Error>
    decreases |tweets|
  {
    if tweets == [] then Success(s)
    else
      match StepV2(s, tweets[0], sel)
      case Failure(e) => Failure(e)
      case Success(s') => RunV2(s', tweets[1..], sel)
  }

  // ---------------------------------------------------------------- methods

  /** Lines 219-229 (and 253-263, 287-297): the two searches with `break`. */
  method FindMainUser(t: TweetV2, ts: seq<IncludedTweet>) returns (mu: Option<UserV2>)
    requires t.referencedTweets.Some? && |t.referencedTweets.value| != 0
    ensures mu == MainUser(t, ts)
  {
    var refId := ReferencedId(t);
    var main: Option<string> := None;
    var i := 0;
    while i < |ts|
      invariant 0 <= i <= |ts|
      invariant forall j :: 0 <= j < i ==> ts[j].id != refId
      invariant main.None?
    {
      if ts[i].id == refId {
        main := Some(ts[i].authorId);
        break;
      }
      i := i + 1;
    }
    assert main == MainUserId(ts, refId);
    var us := IncludedUsers(t);
    mu := None;
    var j := 0;
    while j < |us|
      invariant 0 <= j <= |us|
      invariant forall k :: 0 <= k < j ==> main != Some(us[k].id)
      invariant mu.None?
    {
      if Some(us[j].id) == main {
        mu := Some(us[j]);
        break;
      }
      j := j + 1;
    }
  }

  /** Lines 211-311: one reference phase, returning the user it appends. */
  method ReferencePhase(s: UserState, t: TweetV2, sel: Selector, k: ReferenceType)
    returns (r: Result<UserState, Error>, added: seq<UserV2>)
    ensures r == AfterReference(s, t, sel, k)
    ensures added == ResolvedUser(t, sel, k)
  {
    added := [];
    if !(KindOf(k) in sel && References(t, k)) || t.includedTweets.None? {
      return Success(s), added;
    }
    var s1 := s;
    var mu := FindMainUser(t, t.includedTweets.value);
    if mu.Some? {
      added := [mu.value];
      s1 := SetVar(s1, k, Lower(mu.value.username));
    }
    var v := Var(s1, k);
    if v.None? {
      return Failure(UnboundLocal(VarName(k))), added;
    }
    var a, b := v.value, Uid(t);
    var net := s1.net;
    if k == RepliedTo && (a, b) !in net {
      net := net[(a, b) := Counters(1, 1, 0, 0, 1)];
    } else {
      net := AddInteraction(net, a, b, KindOf(k));
    }
    return Success(s1.(net := net)), added;
  }

  /** Lines 313-331: the mention phase. */
  method MentionPhaseV2(s: UserState, t: TweetV2, sel: Selector) returns (r: Result<UserState, Error>)
    ensures r == AfterMentions(s, t, sel)
  {
    if !(Mention in sel && t.referencedTweets.None?) {
      return Success(s);
    }
    if t.entities.None? {
      return Failure(MissingKey("entities"));
    }
    var net, mid := s.net, s.mid;
    if t.entities.value.mentions.Some? {
      var ms := t.entities.value.mentions.value;
      ghost var names := Names(ms);
      for i := 0 to |ms|
        invariant net == MentionEdges(s.net, Uid(t), names[..i])
        invariant mid == if i == 0 then s.mid else Some(names[i - 1])
      {
        var n := Lower(ms[i].username);
        mid := Some(n);
        MentionEdgesNext(s.net, Uid(t), names, i);
        net := AddInteraction(net, Uid(t), n, Mention);
      }
      assert names[..|names|] == names;
    }
    return Success(s.(net := net, mid := mid));
  }

  /** Lines 208-331: the four phases of one tweet, and the users they collect. */
  method InteractionsV2(s: UserState, t: TweetV2, sel: Selector) returns (r: Result<UserState, Error>, users: seq<UserV2>)
    ensures r == Interactions(s, t, sel)
    ensures r.Success? ==> users == UsersV2(t, sel)
  {
    users := [t.author];
    var s1, a1 := ReferencePhase(s, t, sel, Retweeted);
    if s1.Failure? {
      return s1, users;
    }
    var s2, a2 := ReferencePhase(s1.value, t, sel, Quoted);
    if s2.Failure? {
      return s2, users;
    }
    var s3, a3 := ReferencePhase(s2.value, t, sel, RepliedTo);
    if s3.Failure? {
      return s3, users;
    }
    users := users + a1 + a2 + a3;
    r := MentionPhaseV2(s3.value, t, sel);
    users := users + MentionList(t, sel);
  }

  /** Lines 333-355: the loop over the users, then the widening of `uname`'s range. */
  method SightUsersV2(props: PropTable, users: seq<UserV2>, ts: int) returns (r: PropTable)
    requires |users| > 0
    ensures r == SightAndWiden(props, users, ts)
  {
    r := RegisterUsersV2(props, users);
    var uname := Lower(users[|users| - 1].username);
    SightAllV2Ranges(props, users, uname);
    SightAllV2Keys(props, users, uname);
    assert users[|users| - 1] in users;
    r := r[uname := r[uname].(tstampMin := Min(r[uname].tstampMin, ts))];
    r := r[uname := r[uname].(tstampMax := Max(r[uname].tstampMax, ts))];
  }

  /** Lines 202-355: one tweet. */
  method ProcessTweetV2(s: UserState, t: TweetV2, sel: Selector) returns (r: Result<UserState, Error>)
    ensures r == StepV2(s, t, sel)
  {
    var s', users := InteractionsV2(s, t, sel);
    if s'.Failure? {
      return s';
    }
    var props := SightUsersV2(s'.value.userProp, users, t.createdAt);
    return Success(s'.value.(userProp := props));
  }

  /** Lines 103-111, 202-355 and 357 for `version == 2`: the loop over the tweets. */
  method CreateUserInteractionNetworkV2(tweets: seq<TweetV2>, sel: Selector) returns (r: Result<UserNetwork, Error>)
    ensures r == Output(RunV2(Initial, tweets, sel))
  {
    var s := Initial;
    for i := 0 to |tweets|
      invariant RunV2(s, tweets[i..], sel) == RunV2(Initial, tweets, sel)
    {
      assert tweets[i..][0] == tweets[i] && tweets[i..][1..] == tweets[i + 1..];
      var step := ProcessTweetV2(s, tweets[i], sel);
      if step.Failure? {
        return Failure(step.error);
      }
      s := step.value;
    }
    return Success(UserNetwork(s.net, s.userProp));
  }

  // ---------------------------------------------------------------- properties

  /** All four phases leave the property table alone. */
  lemma InteractionsKeepTable(s: UserState, t: TweetV2, sel: Selector)
    requires Interactions(s, t, sel).Success?
    ensures Interactions(s, t, sel).value.userProp == s.userProp
  {
  }

  /** The phases are exclusive: when the first reference has type k, only the phase of k can
      run. */
  lemma OnlyPhase(s: UserState, t: TweetV2, sel: Selector, k: ReferenceType)
    requires References(t, k)
    ensures Interactions(s, t, sel) == AfterReference(s, t, sel, k)
  {
    assert !MentionPhase(t, sel);
    forall k', s' | k' != k ensures AfterReference(s', t, sel, k') == Success(s') {
      assert !References(t, k');
    }
  }

  /** A resolved retweet or quote, or a reply along an existing edge, records exactly one
      interaction of its kind from the referenced author to the author, sets `rid` (retweet)
      or `qid` (quote, reply) to the referenced author, and cannot fail. */
  lemma StepV2Resolved(s: UserState, t: TweetV2, sel: Selector, k: ReferenceType, u: UserV2)
    requires Resolves(t, sel, k) && MainUser(t, t.includedTweets.value) == Some(u)
    requires k != RepliedTo || (Lower(u.username), Uid(t)) in s.net
    ensures StepV2(s, t, sel).Success?
    ensures StepV2(s, t, sel).value.net == Record(s.net, Lower(u.username), Uid(t), KindOf(k))
    ensures Var(StepV2(s, t, sel).value, k) == Some(Lower(u.username))
  {
    OnlyPhase(s, t, sel, k);
  }

  /** Lines 299-311 as written: a reply along a new edge creates it with weight 1 but retweet 1
      and reply 1, so the weight is no longer the sum of the counters. */
  lemma StepV2ReplyNewEdge(s: UserState, t: TweetV2, sel: Selector, u: UserV2)
    requires Resolves(t, sel, RepliedTo) && MainUser(t, t.includedTweets.value) == Some(u)
    requires (Lower(u.username), Uid(t)) !in s.net
    ensures StepV2(s, t, sel).Success?
    ensures StepV2(s, t, sel).value.net == s.net[(Lower(u.username), Uid(t)) := Counters(1, 1, 0, 0, 1)]
    ensures !Balanced(StepV2(s, t, sel).value.net)
  {
    OnlyPhase(s, t, sel, RepliedTo);
    var r := StepV2(s, t, sel).value.net;
    assert !Consistent(r[(Lower(u.username), Uid(t))]);
  }

  /** When the referenced author is not among the included tweets and users, the phase still
      writes an edge, from the handle its local kept from an earlier tweet; with no earlier
      value the pass dies with UnboundLocalError. */
  lemma StepV2Unresolved(s: UserState, t: TweetV2, sel: Selector, k: ReferenceType)
    requires Resolves(t, sel, k) && MainUser(t, t.includedTweets.value).None?
    ensures Var(s, k).None? ==> StepV2(s, t, sel) == Failure(UnboundLocal(VarName(k)))
    ensures Var(s, k).Some? ==>
      StepV2(s, t, sel).Success?
      && StepV2(s, t, sel).value.net == ReferenceEdge(s.net, Var(s, k).value, Uid(t), k)
  {
    OnlyPhase(s, t, sel, k);
  }

  /** Without `includes.tweets` a retweet, quote or reply adds no edge and names only its
      author. */
  lemma StepV2WithoutIncludedTweets(s: UserState, t: TweetV2, sel: Selector, k: ReferenceType)
    requires Fires(t, sel, k) && t.includedTweets.None?
    ensures StepV2(s, t, sel).Success?
    ensures StepV2(s, t, sel).value.net == s.net
    ensures UsersV2(t, sel) == [t.author]
  {
  }

  /** Mentions are read from `data.entities`, which the mention phase requires. */
  lemma StepV2MissingEntities(s: UserState, t: TweetV2, sel: Selector)
    requires MentionPhase(t, sel) && t.entities.None?
    ensures StepV2(s, t, sel) == Failure(MissingKey("entities"))
  {
  }

  /** A tweet without references records one mention per mentioned handle, and nothing else. */
  lemma StepV2MentionsAt(s: UserState, t: TweetV2, sel: Selector, e: (string, string))
    requires MentionPhase(t, sel) && t.entities.Some?
    ensures StepV2(s, t, sel).Success?
    ensures var d := if e.0 == Uid(t) then Occ(Names(MentionList(t, sel)), e.1) else 0;
      && Get(StepV2(s, t, sel).value.net, e).mention == Get(s.net, e).mention + d
      && Get(StepV2(s, t, sel).value.net, e).weight == Get(s.net, e).weight + d
      && Get(StepV2(s, t, sel).value.net, e).retweet == Get(s.net, e).retweet
      && Get(StepV2(s, t, sel).value.net, e).quote == Get(s.net, e).quote
      && Get(StepV2(s, t, sel).value.net, e).reply == Get(s.net, e).reply
    ensures e in StepV2(s, t, sel).value.net <==>
      e in s.net || (e.0 == Uid(t) && e.1 in Names(MentionList(t, sel)))
  {
    MentionEdgesAt(s.net, Uid(t), Names(MentionList(t, sel)), e);
    MentionEdgesKeys(s.net, Uid(t), Names(MentionList(t, sel)));
  }

  /** Lines 333-355 as written: of all the users a tweet names, only the last has its range
      widened to the tweet's timestamp; every other row keeps its range, and a row created for
      the tweet stays at `sys.maxsize` and 0. */
  lemma StepV2WidensLastOnly(s: UserState, t: TweetV2, sel: Selector, n: string)
    requires StepV2(s, t, sel).Success?
    ensures Covers(StepV2(s, t, sel).value.userProp, LastName(t, sel), t.createdAt)
    ensures var p, p' := s.userProp, StepV2(s, t, sel).value.userProp;
      n != LastName(t, sel) && n in p ==>
        n in p' && p'[n].tstampMin == p[n].tstampMin && p'[n].tstampMax == p[n].tstampMax
    ensures var p, p' := s.userProp, StepV2(s, t, sel).value.userProp;
      n != LastName(t, sel) && n !in p && n in p' ==>
        p'[n].tstampMin == MaxSize && p'[n].tstampMax == 0
  {
    InteractionsKeepTable(s, t, sel);
    SightAllV2Ranges(s.userProp, UsersV2(t, sel), n);
    SightAllV2Keys(s.userProp, UsersV2(t, sel), n);
    SightAllV2Ranges(s.userProp, UsersV2(t, sel), LastName(t, sel));
    SightAllV2Keys(s.userProp, UsersV2(t, sel), LastName(t, sel));
  }

  /** A first tweet by alice mentioning bob leaves alice's new row at `sys.maxsize` and 0:
      her own tweet's timestamp is not within her range. */
  lemma AuthorNotWidenedExample()
    ensures var alice, bob := UserV2("1", "alice", None), UserV2("2", "bob", None);
      var t := TweetV2(5, None, Some(EntitiesV2(Some([bob]), None)), alice, [], None);
      StepV2(Initial, t, {Mention}).Success?
      && "alice" in StepV2(Initial, t, {Mention}).value.userProp
      && !Covers(StepV2(Initial, t, {Mention}).value.userProp, "alice", 5)
  {
    var alice, bob := UserV2("1", "alice", None), UserV2("2", "bob", None);
    var t := TweetV2(5, None, Some(EntitiesV2(Some([bob]), None)), alice, [], None);
    assert Lower("alice") == "alice";
    assert Lower("bob") == "bob";
    assert MentionList(t, {Mention}) == [bob];
    assert UsersV2(t, {Mention}) == [alice, bob];
    assert LastName(t, {Mention}) == "bob";
    assert Interactions(Initial, t, {Mention}).Success?;
    SightAllV2Ranges(map[], [alice, bob], "alice");
    SightAllV2Keys(map[], [alice, bob], "alice");
    assert alice in [alice, bob];
    StepV2WidensLastOnly(Initial, t, {Mention}, "alice");
  }

  /** Without replies, a tweet that does not fail keeps every weight equal to the sum of the
      counters. */
  lemma StepV2Balanced(s: UserState, t: TweetV2, sel: Selector)
    requires Reply !in sel && Balanced(s.net)
    requires StepV2(s, t, sel).Success?
    ensures Balanced(StepV2(s, t, sel).value.net)
  {
    var s1 := AfterReference(s, t, sel, Retweeted).value;
    var s2 := AfterReference(s1, t, sel, Quoted).value;
    var s3 := AfterReference(s2, t, sel, RepliedTo).value;
    if Resolves(t, sel, Retweeted) {
      RecordBalanced(s.net, Var(s1, Retweeted).value, Uid(t), Retweet);
    }
    if Resolves(t, sel, Quoted) {
      RecordBalanced(s1.net, Var(s2, Quoted).value, Uid(t), Quote);
    }
    assert s3 == s2;
    if MentionPhase(t, sel) {
      MentionEdgesBalanced(s3.net, Uid(t), Names(MentionList(t, sel)));
    }
  }

  /** Without replies, a pass that does not fail ends with every weight equal to the sum of
      the counters. */
  lemma {:induction false} RunV2Balanced(s: UserState, tweets: seq<TweetV2>, sel: Selector)
    requires Reply !in sel && Balanced(s.net)
    requires RunV2(s, tweets, sel).Success?
    ensures Balanced(RunV2(s, tweets, sel).value.net)
    decreases |tweets|
  {
    if tweets != [] {
      StepV2Balanced(s, tweets[0], sel);
      RunV2Balanced(StepV2(s, tweets[0], sel).value, tweets[1..], sel);
    }
  }
}
