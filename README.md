# Twitter network builders, modelled in Dafny

This project models the two graph builders of `notebooks/network_builder.py`:

- `create_user_interaction_network` takes a pass over decoded tweets. It builds a directed graph
  with one edge per ordered pair of lower-cased handles. Each edge carries five counters:
  `weight`, `retweet`, `quote`, `mention` and `reply`. Retweet and quote edges point from the
  referenced author to the author, mention edges from the author to each mentioned handle, v1
  reply edges from the author to a mention, and v2 reply edges from the replied-to author to the
  author. The pass also fills the property table `userProp`: profile fields and a timestamp range
  per handle. Both input versions are modelled: Twitter API v1.1 objects and v2 objects with
  `includes`. The default `edge_selector` selects all four kinds. Under it the v1 pass-level
  balance lemma (`UserNetworkV1.RunV1Balanced`, which needs replies unselected) does not apply;
  a v1 tweet with a reply is described step by step by `UserNetworkV1.StepV1ReplyAfterMentions`
  (mentions are selected) and `UserNetworkV1.StepV1ReplyOverwrites`.
- `create_hashtag_network` builds an undirected co-occurrence graph of lower-cased hashtags from
  the tweets that are not retweets. Every pair of positions `i < j` in a tweet's hashtag list adds
  1 to the edge between the two tags. Each tag gets a count and a timestamp range. After the pass,
  the 251st largest count (or the smallest, with at most 250 tags) is the cut-off: a node gets its
  own name as `name_viz` only when its count is strictly above it.

The model is imperative where the source is. Each builder is a method with a `for` loop over the
tweets. So is each of its inner loops: mentions, the user-table loop, the two `break` searches of
v2, and the `i`/`j` hashtag loops. Each method's `ensures` ties its result to a specification
function: a fold over the tweets (`RunV1`, `RunV2`, `RunTagsV1`, `RunTagsV2`) built from per-tweet
steps. The lemmas state what those steps and folds do: counters, edge sets, gating, the weight
invariant, timestamp ranges, counts by occurrence, pair weights and the label cut-off.

The graphs are Dafny maps:

- The directed graph maps `(source, target)` to `Counters`.
- The undirected graph maps the set `{a, b}` to a weight; a self-pair is the one-element set `{a}`.
- Python dictionaries keep insertion order. The order in which hashtags are first counted is kept
  as a sequence, so `list(htagCount.values())` is determined.

The source raises an exception in several cases, and each becomes a `Failure` of the `Error` type:

- an unbound local (`mid`, `rid`, `qid`);
- a `KeyError` on a missing edge;
- a missing `data.entities`;
- `values[-1]` on an empty count list.

Several defects of the source are modelled as written and marked in the code:

- The v1 reply branch tests the edge `(uid, repid)` but updates `(uid, mid)`. `mid` is left over
  from the mention loop, or from an earlier tweet, or is unbound. The update fails when `mid` is
  unbound, or when `(uid, repid)` exists but `(uid, mid)` does not. Otherwise, when
  `(uid, repid)` is missing, `add_edge` overwrites `(uid, mid)` with weight 0 and reply 1
  (`UserNetworkV1.StepV1ReplyOverwrites`, `UserNetworkV1.RunV1ReplyWithoutMentionsFails`).
- A v2 reply along a new edge creates it with `retweet=1`. This breaks weight = sum of counters
  (`UserNetworkV2.StepV2ReplyNewEdge`).
- In v2, an unresolved `rid`/`qid` keeps a stale value from an earlier tweet, or is unbound
  (`UserNetworkV2.StepV2Unresolved`). Replies write `qid`, not a variable of their own.
- In v2, the timestamp range is widened only for the last user of the tweet's user list
  (`UserNetworkV2.StepV2WidensLastOnly`, `UserNetworkV2.AuthorNotWidenedExample`).
- `userProp` is never attached to the returned graph. The model returns it beside the graph.

Three behaviours of the code that a reader might not expect:

- With no hashtag counted at all, for example with no tweets, the hashtag builder raises
  `IndexError` rather than returning an empty graph (`HashtagBuilder.HashtagNetworkV1Fails`).
- An unresolvable v2 reference is not simply ignored. It reuses or lacks the local.
- The v1 reply edge is not always the edge to the first mention.

## Model

| member | source | states |
|---|---|---|
| Prelude.Lower | notebooks/network_builder.py:116 | `.lower()` maps each character to its ASCII lower-case letter, keeping the length, so no upper-case letter is left and a string without one is unchanged |
| Prelude.LowerChar | notebooks/network_builder.py:116 | an upper-case ASCII letter becomes the letter 32 code points above it; every other character is kept |
| Tweets.LowerAll | notebooks/network_builder.py:374 | the hashtag list comprehension lower-cases each tag in place, keeping the length |
| Graphs.Bump | notebooks/network_builder.py:124-126 | an update adds one to `weight` and one to the counter of its kind, leaves the other counters, and keeps weight = sum of counters |
| Graphs.Record | notebooks/network_builder.py:124-130 | recording an interaction of u on v makes (u, v) an edge and adds no other edge |
| Graphs.AddInteraction | notebooks/network_builder.py:124-130 | the `has_edge` / `add_edge` branches compute exactly `Record` |
| Graphs.RecordAt | notebooks/network_builder.py:124-160 | an existing edge has its weight and kind counter bumped; a new one starts with weight 1, that counter at 1 and the others at 0; every other edge is unchanged |
| Graphs.RecordBalanced | notebooks/network_builder.py:124-160 | retweet, quote and mention updates preserve weight = retweet + quote + mention + reply on every edge |
| Graphs.MentionEdges | notebooks/network_builder.py:145-160 | definition: the mention loop, recording one mention edge from `uid` to each handle in list order |
| Graphs.MentionEdgesKeys | notebooks/network_builder.py:145-160 | the mention loop adds exactly the edges (uid, n) for the mentioned handles n |
| Graphs.MentionEdgesAt | notebooks/network_builder.py:145-160 | the weight and mention counter of (uid, n) grow by the number of times n is mentioned; the other counters and edges are unchanged |
| Graphs.MentionEdgesBalanced | notebooks/network_builder.py:145-160 | the mention loop keeps every weight equal to the sum of its counters |
| Graphs.IncAllAt | notebooks/network_builder.py:385-389 | after a run of undirected increments, an edge exists iff it existed or was incremented, and its weight grew by the number of increments |
| Graphs.IncAllAppend | notebooks/network_builder.py:385-389 | incrementing two runs of edges one after the other is incrementing their concatenation |
| Graphs.IncEdge | notebooks/network_builder.py:386-389 | definition: `has_edge` then `weight += 1`, or `add_edge` with weight 1, on the unordered edge |
| UserGraph.CopyFieldsAt | notebooks/network_builder.py:185-193 | after the field copy, a listed field the user holds non-null has the user's value and every other field keeps its old value |
| UserGraph.SightV1 | notebooks/network_builder.py:178-200 | definition: one v1 sighting creates the row with `id_str`, `sys.maxsize` and 0 if missing, copies the non-null listed fields and widens the range to the timestamp |
| UserGraph.SightV1Effect | notebooks/network_builder.py:177-200 | a v1 sighting creates the row (id_str, maxsize, 0) if missing, copies the non-null listed fields, widens the range to the timestamp, and changes no other row; an existing row gains exactly the written fields and keeps every other attribute, and a new row holds exactly id_str and the written fields |
| UserGraph.SightV1KeepsCover | notebooks/network_builder.py:195-200 | a sighting never narrows any row's timestamp range |
| UserGraph.SightV1CoversOwn | notebooks/network_builder.py:195-200 | after a sighting at a timestamp, the user's own row covers that timestamp |
| UserGraph.SightAllV1 | notebooks/network_builder.py:177-200 | definition: the v1 loop over `users`, one sighting per user in list order |
| UserGraph.SightAllV1Covers | notebooks/network_builder.py:177-200 | after the v1 user loop, every user of the list has a row whose range covers the tweet's timestamp |
| UserGraph.RegisterUserV1 | notebooks/network_builder.py:178-200 | the in-place row update, with its loop over the field names, computes the v1 sighting |
| UserGraph.CopyListed | notebooks/network_builder.py:185-193 | the loop over the listed field names copies exactly the fields the object holds non-null, in list order |
| UserGraph.RegisterUsersV1 | notebooks/network_builder.py:177-200 | the loop over `users` computes the sightings in order |
| UserGraph.CopyMetricsAt | notebooks/network_builder.py:344-352 | `friends_count` receives a non-null `following_count`, and `followers_count` and `tweet_count` receive their own non-null values; everything else is kept |
| UserGraph.SightV2 | notebooks/network_builder.py:334-352 | definition: one v2 sighting creates the row with `id_str` = id, `sys.maxsize` and 0 if missing, copies id, username and the non-null metrics, and leaves the range alone |
| UserGraph.SightV2Effect | notebooks/network_builder.py:334-352 | a v2 sighting creates the row (id, maxsize, 0) if missing, copies id, username and the non-null metrics, never touches the range, and changes no other row |
| UserGraph.SightV2Frame | notebooks/network_builder.py:334-352 | an existing row gains exactly id, username and the written metrics and keeps every other attribute; a new row holds exactly id_str, id, username and the written metrics |
| UserGraph.SightAllV2 | notebooks/network_builder.py:333-352 | definition: the v2 loop over `users`, one sighting per user in list order |
| UserGraph.SightAllV2Ranges | notebooks/network_builder.py:333-352 | the v2 user loop never moves the range of a row that existed, and the rows it creates sit at (maxsize, 0) |
| UserGraph.SightAllV2Keys | notebooks/network_builder.py:333-336 | after the v2 user loop a row exists exactly for the names that had one and the lower-cased usernames of the list |
| UserGraph.SightV2Range | notebooks/network_builder.py:334-336 | one v2 sighting adds only the user's row, keeps the range of a row that existed, and starts a new row at (maxsize, 0) |
| UserGraph.RegisterUserV2 | notebooks/network_builder.py:334-352 | the in-place v2 row update, with its two field loops, computes the v2 sighting |
| UserGraph.CopyMetricFields | notebooks/network_builder.py:344-352 | the loop over the metric names writes exactly the metrics that `public_metrics` holds non-null, under their output names |
| UserGraph.RegisterUsersV2 | notebooks/network_builder.py:333-352 | the v2 loop over `users` computes the sightings in order |
| UserNetworkV1.MentionNames | notebooks/network_builder.py:145-147 | the mentioned handles, lower-cased, in order |
| UserNetworkV1.ReplyEdgeV1 | notebooks/network_builder.py:161-176 | definition as written: unbound `mid` fails; an existing first-mention edge bumps (uid, mid), or raises KeyError when (uid, mid) is missing; otherwise (uid, mid) is set to weight 0, reply 1 |
| UserNetworkV1.StepV1 | notebooks/network_builder.py:112-200 | definition: one v1 iteration, the retweet, quote, mention and reply phases in order, then the sighting of the appended users |
| UserNetworkV1.RunV1 | notebooks/network_builder.py:111-200 | definition: the v1 loop over the tweets, stopped by the first exception |
| UserNetworkV1.RecordMentions | notebooks/network_builder.py:143-160 | the mention loop adds the mention edges and leaves `mid` on the last mention, or unchanged when there is none |
| UserNetworkV1.RecordReplyV1 | notebooks/network_builder.py:161-176 | the reply branch computes the reply update as written, including its failures |
| UserNetworkV1.RetweetStepV1 | notebooks/network_builder.py:117-130 | the retweet branch records one retweet from the retweeted author to the author and sets `rid`, as the retweet phase defines |
| UserNetworkV1.QuoteStepV1 | notebooks/network_builder.py:131-142 | the quote branch records one quote from the quoted author to the author and sets `qid`, as the quote phase defines |
| UserNetworkV1.MentionStepV1 | notebooks/network_builder.py:143-160 | the mention branch, skipped for retweets, records the mention edges and leaves `mid` on the last mention, as the mention phase defines |
| UserNetworkV1.InteractionsV1 | notebooks/network_builder.py:113-160 | the retweet, quote and mention phases compute the state before the reply, and collect the users in the source's order |
| UserNetworkV1.ProcessTweetV1 | notebooks/network_builder.py:112-200 | one loop iteration computes one step of the v1 pass |
| UserNetworkV1.CreateUserInteractionNetworkV1 | notebooks/network_builder.py:103-200 | the v1 builder returns the graph and table of the fold over the tweets, or its first error |
| UserNetworkV1.StepV1At | notebooks/network_builder.py:117-160 | without a reply phase, a tweet cannot fail. Each edge's retweet, quote and mention counters and its weight grow by exactly its retweet, quote and mention deltas: (retweeted, author), (quoted, author), and (author, m) once per mention of m |
| UserNetworkV1.StepV1Edges | notebooks/network_builder.py:117-160 | without a reply phase, the new edges are exactly the retweet edge, the quote edge and the mention edges, each only when selected; mentions only when the tweet is not a retweet |
| UserNetworkV1.StepV1Balanced | notebooks/network_builder.py:117-160 | without a reply phase, a tweet keeps weight = sum of counters on every edge |
| UserNetworkV1.StepV1BalancedBeforeReply | notebooks/network_builder.py:117-160 | the retweet, quote and mention phases keep the weights balanced |
| UserNetworkV1.StepV1ReplyAfterMentions | notebooks/network_builder.py:143-176 | when mentions were recorded for the same tweet, the reply cannot fail. It bumps weight and reply on the edge to the LAST mention, adds no edge, and keeps the weights balanced |
| UserNetworkV1.ReplyBumpsLast | notebooks/network_builder.py:161-166 | after recorded mentions both the first- and the last-mention edge exist, and the reply step is one reply bump of the last-mention edge |
| UserNetworkV1.StepV1ReplyOverwrites | notebooks/network_builder.py:161-176 | when the edge to the first mention is missing, the reply overwrites (uid, mid) with weight 0, reply 1, which breaks the weight invariant |
| UserNetworkV1.StepV1KeepsMid | notebooks/network_builder.py:143-147 | `mid` is assigned only by the mention loop |
| UserNetworkV1.RunV1ReplyWithoutMentionsFails | notebooks/network_builder.py:161-166 | with replies but not mentions selected and `mid` never assigned, a pass that contains a reply fails with exactly the unbound `mid` |
| UserNetworkV1.StepV1NoMidFails | notebooks/network_builder.py:161-166 | without mentions selected and `mid` unassigned, a step fails exactly when it has a reply to record, and then with the unbound `mid` |
| UserNetworkV1.RunV1Balanced | notebooks/network_builder.py:111-176 | without replies selected, a pass never fails and ends with every weight equal to the sum of its counters |
| UserNetworkV1.StepV1Covers | notebooks/network_builder.py:177-200 | after a tweet, the row of every user in its `users` list covers its timestamp |
| UserNetworkV1.SightAllV1KeepsCover | notebooks/network_builder.py:177-200 | the user loop never narrows a row's range |
| UserNetworkV1.RunV1KeepsCover | notebooks/network_builder.py:111-200 | later tweets never narrow a row's range |
| UserNetworkV1.RunV1Covers | notebooks/network_builder.py:111-200 | at the end of a successful pass, every user named by any tweet has a row covering that tweet's timestamp |
| UserNetworkV1.RetweetExample | notebooks/network_builder.py:113-130 | a retweet by alice of bob, with every kind selected, succeeds and gives the single edge bob→alice with weight 1 and retweet 1 |
| UserNetworkV2.FirstTweet | notebooks/network_builder.py:221-224 | the search over `includes.tweets` stops at the first tweet with the referenced id, or finds none |
| UserNetworkV2.FirstUser | notebooks/network_builder.py:225-229 | the search over `includes.users` stops at the first user whose id is `main_user_id`, or finds none |
| UserNetworkV2.MainUser | notebooks/network_builder.py:219-229 | definition: the first included user whose id is the author id of the first included tweet with the referenced id, if any |
| UserNetworkV2.Names | notebooks/network_builder.py:318 | the mentioned usernames, lower-cased, in order |
| UserNetworkV2.FindMainUser | notebooks/network_builder.py:219-229 | the two loops with `break` find the first included user whose id is the author id of the first matching included tweet |
| UserNetworkV2.ReferenceEdge | notebooks/network_builder.py:231-311 | definition: bump the edge from the referenced author, or create it with one count of its kind; a new reply edge also gets retweet 1 |
| UserNetworkV2.AfterReference | notebooks/network_builder.py:211-311 | definition: one reference phase; a resolved author sets `rid` or `qid`, an unresolved one reuses the earlier value or fails as an unbound local |
| UserNetworkV2.ReferencePhase | notebooks/network_builder.py:211-311 | one reference phase computes its update of graph and locals, including its failure, and the user it appends |
| UserNetworkV2.MentionPhaseV2 | notebooks/network_builder.py:313-331 | the v2 mention phase computes its update, failing when `data.entities` is absent |
| UserNetworkV2.InteractionsV2 | notebooks/network_builder.py:208-331 | the four phases compute their combined update and collect the users in order |
| UserNetworkV2.SightAndWiden | notebooks/network_builder.py:333-355 | definition: sight every appended user, then widen only the row of the last one |
| UserNetworkV2.SightUsersV2 | notebooks/network_builder.py:333-355 | the user loop followed by the widening of the last handle's range |
| UserNetworkV2.ProcessTweetV2 | notebooks/network_builder.py:202-355 | one loop iteration computes one step of the v2 pass |
| UserNetworkV2.StepV2 | notebooks/network_builder.py:202-355 | definition: one v2 iteration, the three reference phases and the mention phase, then the sighting of the appended users |
| UserNetworkV2.RunV2 | notebooks/network_builder.py:111-355 | definition: the v2 loop over the tweets, stopped by the first exception |
| UserNetworkV2.CreateUserInteractionNetworkV2 | notebooks/network_builder.py:103-357 | the v2 builder returns the graph and table of the fold over the tweets, or its first error |
| UserNetworkV2.InteractionsKeepTable | notebooks/network_builder.py:208-331 | the four phases never touch the property table |
| UserNetworkV2.StepV2Resolved | notebooks/network_builder.py:211-277 | a resolved retweet or quote, or a reply along an existing edge, records one interaction from the referenced author to the author and sets `rid`/`qid` to that author |
| UserNetworkV2.OnlyPhase | notebooks/network_builder.py:211-331 | a tweet that references with one kind runs only that kind's branch, and no mention loop |
| UserNetworkV2.StepV2ReplyNewEdge | notebooks/network_builder.py:299-311 | a reply along a new edge creates it with weight 1, retweet 1 and reply 1, which breaks the weight invariant |
| UserNetworkV2.StepV2Unresolved | notebooks/network_builder.py:225-231 | an unresolved reference fails with an unbound `rid`/`qid` if it was never set, and otherwise records the interaction from the stale author |
| UserNetworkV2.StepV2WithoutIncludedTweets | notebooks/network_builder.py:219-231 | without `includes.tweets`, a reference adds no edge and the tweet names only its author |
| UserNetworkV2.StepV2MissingEntities | notebooks/network_builder.py:313-316 | a tweet without references and without `data.entities` fails with a KeyError when mentions are selected |
| UserNetworkV2.StepV2MentionsAt | notebooks/network_builder.py:313-331 | a tweet without references adds, to each edge (author, n), one mention and one weight per mention of n, leaves every other counter, and creates exactly the edges (author, n) for the mentioned n |
| UserNetworkV2.StepV2WidensLastOnly | notebooks/network_builder.py:333-355 | only the last user's range is widened to cover the timestamp; every other existing row keeps its range, and new rows stay at (maxsize, 0) |
| UserNetworkV2.AuthorNotWidenedExample | notebooks/network_builder.py:333-355 | a first tweet by alice mentioning bob leaves alice's row at (maxsize, 0) |
| UserNetworkV2.StepV2Balanced | notebooks/network_builder.py:211-331 | without replies selected, a tweet keeps every weight equal to the sum of its counters |
| UserNetworkV2.RunV2Balanced | notebooks/network_builder.py:111-355 | without replies selected, a successful pass ends with every weight balanced |
| Visibility.SortDesc | notebooks/network_builder.py:394 | `sorted(..., reverse=True)` is decreasing and a permutation of its input |
| Visibility.SortDescCount | notebooks/network_builder.py:394 | sorting changes no count of values above a bound |
| Visibility.Cutoff | notebooks/network_builder.py:395-398 | definition: position 250 of the sorted values when there are more than 250, else the last, and IndexError on an empty list |
| Visibility.Threshold | notebooks/network_builder.py:394-398 | definition: the cut-off of the counts sorted in decreasing order |
| Visibility.DescendingAbove | notebooks/network_builder.py:395-396 | in a decreasing list, at most k values exceed the value at position k |
| Visibility.DescendingAtLeast | notebooks/network_builder.py:395-396 | in a decreasing list, at least k + 1 values reach the value at position k |
| Visibility.ThresholdSpec | notebooks/network_builder.py:394-398 | the cut-off fails exactly on an empty list; otherwise it is one of the counts, at most 250 counts exceed it, and with at most 250 counts it is the minimum |
| Visibility.ThresholdRank | notebooks/network_builder.py:394-396 | with more than 250 counts, at least 251 counts reach the cut-off |
| HashtagNetwork.Row | notebooks/network_builder.py:385-386 | the inner loop links position i to each later position, in order |
| HashtagNetwork.CountTag | notebooks/network_builder.py:378-381 | definition: `htagCount[h] += 1`, starting at 0 for a new hashtag |
| HashtagNetwork.SpanTag | notebooks/network_builder.py:380-383 | definition: widen the hashtag's range to the timestamp, starting at (`sys.maxsize`, 0) for a new hashtag |
| HashtagNetwork.TallyTweet | notebooks/network_builder.py:377-389 | definition: one tweet's hashtags, counted, widened and linked pairwise for each position in turn |
| HashtagNetwork.CountAllAt | notebooks/network_builder.py:378-381 | a tag is counted iff it was or occurs in the list, and its count grows by its number of occurrences, from 0 for a new tag |
| HashtagNetwork.CountAllAppend | notebooks/network_builder.py:377-381 | counting two lists one after the other is counting their concatenation |
| HashtagNetwork.SpanAllAt | notebooks/network_builder.py:380-383 | every tag of the list ends with its old range, or (maxsize, 0) for a new tag, widened to the timestamp: (min(old min, ts), max(old max, ts)); no range narrows; a tag not in the list keeps its range |
| HashtagNetwork.OrderAllValid | notebooks/network_builder.py:378-380 | the first-counted order lists every counted tag exactly once |
| HashtagNetwork.PairsMembers | notebooks/network_builder.py:377-389 | the incremented edges are exactly the sets {h[i], h[j]} for positions i < j |
| HashtagNetwork.PairsLength | notebooks/network_builder.py:377-389 | a list of k tags makes k(k-1)/2 increments |
| HashtagNetwork.TallyWeights | notebooks/network_builder.py:385-389 | after a tweet, an edge's weight grew by the number of position pairs that give it, and it is an edge iff it was one or some pair gives it |
| HashtagNetwork.SingleTagNoEdge | notebooks/network_builder.py:385-389 | a tweet with at most one tag leaves the graph, and so its nodes, unchanged |
| HashtagNetwork.SelfPairs | notebooks/network_builder.py:385-389 | the pairs of ["a", "b", "a"] are a-b, a-a, a-b |
| HashtagNetwork.SelfPairExample | notebooks/network_builder.py:385-389 | ["a", "b", "a"] gives a-b weight 2 and a-a weight 1 |
| HashtagNetwork.SelfPairCount | notebooks/network_builder.py:377-381 | ["a", "b", "a"] counts a twice and b once |
| HashtagNetwork.TallyValid | notebooks/network_builder.py:377-389 | a tweet keeps both dictionaries on the same keys, listed once each by the order, and every edge endpoint counted |
| HashtagNetwork.LinkRow | notebooks/network_builder.py:385-389 | the `for j` loop adds one to each edge of the row |
| HashtagNetwork.CountOne | notebooks/network_builder.py:378-383 | one position: create the entries of a new tag, then count it and widen its range |
| HashtagNetwork.TallyHashtags | notebooks/network_builder.py:377-389 | the nested `for i` / `for j` loops compute the per-tweet counts, ranges, order and edge increments |
| HashtagNetwork.Counts | notebooks/network_builder.py:394 | definition, no contract of its own: `list(htagCount.values())`, the counts in first-counted order |
| HashtagNetwork.EndsCounted | notebooks/network_builder.py:399-402 | every node of the graph has a count and a range, so the lookups cannot fail |
| HashtagNetwork.NodeOf | notebooks/network_builder.py:400-406 | definition: a node's count, its range, and `name_viz` equal to the hashtag when its count is strictly above the cut-off, else empty |
| HashtagNetwork.Attributes | notebooks/network_builder.py:399-406 | definition: the attributes of every node of the graph |
| HashtagNetwork.Finish | notebooks/network_builder.py:394-406 | definition: the cut-off, or IndexError, then the node attributes |
| HashtagNetwork.AboveCount | notebooks/network_builder.py:394-398 | the number of tags above a bound equals the number of counts above it |
| HashtagNetwork.FinishLabelsAtMost | notebooks/network_builder.py:394-406 | at most 250 nodes get a non-empty `name_viz` |
| HashtagNetwork.FinishFails | notebooks/network_builder.py:394-398 | the cut-off fails, with IndexError, exactly when no hashtag was counted |
| HashtagNetwork.FinishNodes | notebooks/network_builder.py:399-406 | the nodes are the edge endpoints. Each carries its count and timestamp range. `name_viz` is its own name iff its count is strictly above the cut-off, else empty |
| HashtagNetwork.SmallCutoff | notebooks/network_builder.py:394-398 | with at most 250 tags, the cut-off is the smallest count |
| HashtagNetwork.FinishSmallLabels | notebooks/network_builder.py:394-406 | with at most 250 tags, a node at the minimum count is unlabelled and a node above it is labelled |
| HashtagNetwork.OrderLength | notebooks/network_builder.py:394 | the list of counts is as long as the count table |
| HashtagBuilder.RunTagsV1Valid | notebooks/network_builder.py:367-389 | the v1 pass keeps the dictionaries consistent |
| HashtagBuilder.StepTagsV1 | notebooks/network_builder.py:368-389 | definition: a retweet is skipped; otherwise its lower-cased hashtags are tallied at `timestamp_ms` |
| HashtagBuilder.RunTagsV1 | notebooks/network_builder.py:367-389 | definition: the v1 loop over the tweets, one step per tweet in order |
| HashtagBuilder.RunTagsV1Count | notebooks/network_builder.py:367-383 | after the v1 pass, each tag's count is its number of occurrences in the tweets that are not retweets |
| HashtagBuilder.RunTagsV1Net | notebooks/network_builder.py:367-389 | after the v1 pass, the graph holds one unit of weight per position pair of each tweet that is not a retweet |
| HashtagBuilder.RunTagsV1Widens | notebooks/network_builder.py:367-383 | the v1 pass never narrows a tag's range |
| HashtagBuilder.RunTagsV1Covers | notebooks/network_builder.py:367-383 | after the v1 pass, a tag's range covers the timestamp of every counted tweet carrying it |
| HashtagBuilder.HashtagNetworkV1Fails | notebooks/network_builder.py:394-398 | v1 fails with IndexError exactly when no counted tweet has a hashtag, for instance on empty input |
| HashtagBuilder.CreateHashtagNetworkV1 | notebooks/network_builder.py:360-408 | the v1 builder computes the fold over the tweets followed by the node attributes |
| HashtagBuilder.RunTagsV2Valid | notebooks/network_builder.py:411-441 | the v2 pass keeps the dictionaries consistent |
| HashtagBuilder.StepTagsV2 | notebooks/network_builder.py:413-441 | definition: a retweet is skipped; missing `data.entities` raises KeyError; a tweet without `hashtags` is skipped; otherwise its lower-cased tags are tallied at `created_at` |
| HashtagBuilder.RunTagsV2 | notebooks/network_builder.py:412-441 | definition: the v2 loop over the tweets, stopped by the first KeyError |
| HashtagBuilder.RunTagsV2Outcome | notebooks/network_builder.py:411-435 | the v2 pass fails exactly when some tweet that is not a retweet lacks `data.entities`, with KeyError. Otherwise each tag's count is its number of occurrences in the counted tweets |
| HashtagBuilder.RunTagsV2Widens | notebooks/network_builder.py:411-435 | the v2 pass never narrows a tag's range |
| HashtagBuilder.RunTagsV2Covers | notebooks/network_builder.py:411-435 | after the v2 pass, a tag's range covers the `created_at` of every counted tweet carrying it |
| HashtagBuilder.RunTagsV2Net | notebooks/network_builder.py:411-441 | after the v2 pass, the graph holds one unit of weight per position pair of each counted tweet |
| HashtagBuilder.HashtagNetworkV2Fails | notebooks/network_builder.py:424-446 | v2 fails with KeyError on a tweet without entities; otherwise it fails exactly when no hashtag was counted, and then with IndexError |
| HashtagBuilder.CreateHashtagNetworkV2 | notebooks/network_builder.py:409-456 | the v2 builder computes the fold over the tweets, or its KeyError, followed by the node attributes |
| HashtagBuilder.FinishNetwork | notebooks/network_builder.py:394-406 | the cut-off and the loop over the nodes compute the node attributes, or IndexError |
| HashtagBuilder.TopCount | notebooks/network_builder.py:395-398 | on a decreasing list the cut-off fails exactly when the list is empty; otherwise it is one of the values, at most 250 values exceed it, at least 251 reach it when there are more than 250, and it is the minimum when there are at most 250 |
| HashtagBuilder.LabelNodes | notebooks/network_builder.py:399-406 | the loop over the nodes gives every node of the graph its count, its time span and its visible name, and nothing else |

## Left out

- Command-line parsing (`get_parser`, `valid_date`): not part of this model.
- Reading the tweets (`get_data_iterator`: directory listing, date filtering of file names, gzip,
  JSON): the builders take a finite sequence of decoded tweets.
- Date parsing (`strptime`, `fromisoformat`, `.timestamp()`) and the float division of
  `timestamp_ms` by 1000: timestamps are integers supplied in the tweet, v1 in milliseconds.
- `tqdm`, `print` and the `m` / `counted` counters of the v1 hashtag loop: diagnostic output only.
- `nx.write_gexf` and the `__main__` driver: serialisation and orchestration.
- networkx itself: `has_edge`, `add_edge` and edge attributes are Dafny map operations.
  `add_edge` on an existing edge overwrites the attributes it is given.
- `version` values other than 1 and 2, for which the source silently does nothing: each version
  is its own method.
- KeyErrors on fields the source reads unconditionally: in v1 `user`, `screen_name`, `id_str`,
  `timestamp_ms`, `entities.user_mentions` and `entities.hashtags`; in v2 `data.created_at`,
  `includes`, `includes.users[0]`, the `type` and `id` of `referenced_tweets[0]`, and the `id`,
  `username` and `author_id` of the included users and tweets it reads. The tweet datatypes
  always carry them. Only the optional members the source tests (or the one it wrongly assumes,
  `data.entities` in v2) are `Option`s.
- v1 `in_reply_to_user_id` is an `Option`: a missing key, which raises KeyError in the source,
  and a JSON null, which skips the reply, are both `None`.
- Prelude.Lower: case folding covers ASCII letters only and keeps the length; Python's `lower()`
  also folds other Unicode letters, and can change the length (`'İ'.lower()` has two code
  points).
- Profile field values are modelled as strings, integers or null; other JSON values are not
  distinguished.
- Edge counters are unbounded integers; Python integers do not wrap either.
- HashtagNetwork.PairsLength: the rise of the total edge weight by k(k-1)/2 is stated as the
  number of unit increments; no sum over the map is defined.
