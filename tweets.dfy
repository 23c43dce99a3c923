/** The decoded tweet records the builders read, one datatype per schema version, with only
    the members the builders look at. A member the builders index without a default is a
    plain field (the record cannot lack it); a member tested with `in` or `.get` is an Option,
    None standing for "absent". */
module Tweets {
  import opened Prelude

  predicate IsUserV1(u: Object) {
    "screen_name" in u && u["screen_name"].Str? && "id_str" in u
  }

  /** A version-1 user object: the `user` of a tweet, of its `retweeted_status` or
      `quoted_status`, or an entry of `entities.user_mentions`. */
  type UserV1 = u: Object | IsUserV1(u) witness map["screen_name" := Str(""), "id_str" := Null]

  function ScreenName(u: UserV1): string {
    u["screen_name"].s
  }

  /** A version-1 tweet. */
  datatype TweetV1 = TweetV1(
    timestampMs: int,                  // `timestamp_ms`
    user: UserV1,                      // `user`
    retweetedUser: Option<UserV1>,     // `retweeted_status.user`; None when `retweeted_status` is absent
    quotedUser: Option<UserV1>,        // `quoted_status.user`; None when `quoted_status` is absent
    inReplyToUserId: Option<string>,   // `in_reply_to_user_id`; None for JSON null
    userMentions: seq<UserV1>,         // `entities.user_mentions`
    hashtags: seq<string>)             // the `text` of each entry of `entities.hashtags`

  /** A version-2 user object (an entry of `includes.users`) or mention entity (an entry of
      `data.entities.mentions`, which has no `public_metrics`). */
  datatype UserV2 = UserV2(id: string, username: string, publicMetrics: Option<Object>)

  /** The `type` of an entry of `data.referenced_tweets`. */
  datatype ReferenceType = Retweeted | Quoted | RepliedTo

  datatype ReferencedTweet = ReferencedTweet(kind: ReferenceType, id: string)

  /** An entry of `includes.tweets`. */
  datatype IncludedTweet = IncludedTweet(id: string, authorId: string)

  /** `data.entities`: `mentions` and `hashtags` (the `tag` of each entry) may be absent. */
  datatype EntitiesV2 = EntitiesV2(mentions: Option<seq<UserV2>>, hashtags: Option<seq<string>>)

  /** A version-2 tweet. `includes.users` is `[author] + otherUsers`: the source reads
      `includes.users[0]` unconditionally, so it is never empty. */
  datatype TweetV2 = TweetV2(
    createdAt: int,                                    // `data.created_at`, already a timestamp
    referencedTweets: Option<seq<ReferencedTweet>>,    // `data.referenced_tweets`
    entities: Option<EntitiesV2>,                      // `data.entities`
    author: UserV2,                                    // `includes.users[0]`
    otherUsers: seq<UserV2>,                           // `includes.users[1..]`
    includedTweets: Option<seq<IncludedTweet>>)        // `includes.tweets`

  function IncludedUsers(t: TweetV2): seq<UserV2> {
    [t.author] + t.otherUsers
  }

  /** `"referenced_tweets" in data and len(...) != 0 and referenced_tweets[0]["type"] == k`. */
  predicate References(t: TweetV2, k: ReferenceType) {
    t.referencedTweets.Some? && |t.referencedTweets.value| != 0 && t.referencedTweets.value[0].kind == k
  }

  function ReferencedId(t: TweetV2): string
    requires t.referencedTweets.Some? && |t.referencedTweets.value| != 0
  {
    t.referencedTweets.value[0].id
  }

  /** The hashtags in lower case, as the list comprehension over the hashtag entities builds them. */
  function LowerAll(tags: seq<string>): (r: seq<string>)
    ensures |r| == |tags|
    ensures forall i :: 0 <= i < |tags| ==> r[i] == Lower(tags[i])
  {
    seq(|tags|, i requires 0 <= i < |tags| => Lower(tags[i]))
  }
}
