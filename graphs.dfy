/** The two graph shapes the builders fill in: a directed graph with one edge per ordered
    pair carrying five counters, and an undirected graph with one integer weight per
    unordered pair. networkx's node sets are the edge endpoints: neither builder adds an
    isolated node. */
module Graphs {
  import opened Prelude

  /** The attributes of a directed interaction edge. */
  datatype Counters = Counters(weight: int, retweet: int, quote: int, mention: int, reply: int)

  datatype EdgeKind = Retweet | Quote | Mention | Reply

  /** A directed graph: at most one edge per ordered pair (source, target). */
  type DiGraph = map<(string, string), Counters>

  const Zero := Counters(0, 0, 0, 0, 0)

  /** The counters of edge e, all zero while there is no such edge. */
  function Get(g: DiGraph, e: (string, string)): Counters {
    if e in g then g[e] else Zero
  }

  /** The weight is the sum of the four kind counters. */
  predicate Consistent(c: Counters) {
    c.weight == c.retweet + c.quote + c.mention + c.reply
  }

  predicate Balanced(g: DiGraph) {
    forall e :: e in g ==> Consistent(g[e])
  }

  /** `weight += 1` together with `<kind> += 1`. */
  function Bump(c: Counters, k: EdgeKind): (r: Counters)
    ensures r.weight == c.weight + 1
    ensures r.retweet == c.retweet + (if k == Retweet then 1 else 0)
    ensures r.quote == c.quote + (if k == Quote then 1 else 0)
    ensures r.mention == c.mention + (if k == Mention then 1 else 0)
    ensures r.reply == c.reply + (if k == Reply then 1 else 0)
    ensures Consistent(c) ==> Consistent(r)
  {
    match k
    case Retweet => c.(weight := c.weight + 1, retweet := c.retweet + 1)
    case Quote => c.(weight := c.weight + 1, quote := c.quote + 1)
    case Mention => c.(weight := c.weight + 1, mention := c.mention + 1)
    case Reply => c.(weight := c.weight + 1, reply := c.reply + 1)
  }

  /** One interaction of kind k from u to v: increment an existing edge, or create it with
      weight 1, that kind's counter 1 and the others 0. */
  function Record(g: DiGraph, u: string, v: string, k: EdgeKind): (r: DiGraph)
    ensures r.Keys == g.Keys + {(u, v)}
  {
    if (u, v) in g then
      g[(u, v) := Bump(g[(u, v)], k)]
    else
      g[(u, v) := Counters(1,
                           if k == Retweet then 1 else 0,
                           if k == Quote then 1 else 0,
                           if k == Mention then 1 else 0,
                           if k == Reply then 1 else 0)]
  }

  /** `if net.has_edge(u, v)` ... `else: net.add_edge(u, v, ...)`, as the builders write it. */
  method AddInteraction(g: DiGraph, u: string, v: string, k: EdgeKind) returns (r: DiGraph)
    ensures r == Record(g, u, v, k)
  {
    if (u, v) in g {
      var c := g[(u, v)];
      match k {
        case Retweet => r := g[(u, v) := c.(weight := c.weight + 1, retweet := c.retweet + 1)];
        case Quote => r := g[(u, v) := c.(weight := c.weight + 1, quote := c.quote + 1)];
        case Mention => r := g[(u, v) := c.(weight := c.weight + 1, mention := c.mention + 1)];
        case Reply => r := g[(u, v) := c.(weight := c.weight + 1, reply := c.reply + 1)];
      }
    } else {
      r := g[(u, v) := Counters(1,
                                if k == Retweet then 1 else 0,
                                if k == Quote then 1 else 0,
                                if k == Mention then 1 else 0,
                                if k == Reply then 1 else 0)];
    }
  }

  /** A first interaction creates the edge as if from all-zero counters, a repeated one bumps
      the existing edge, and no other edge changes. */
  lemma RecordAt(g: DiGraph, u: string, v: string, k: EdgeKind, e: (string, string))
    ensures Get(Record(g, u, v, k), e) == if e == (u, v) then Bump(Get(g, e), k) else Get(g, e)
  {
  }

  /** Recording an interaction keeps the weight the sum of the kind counters. */
  lemma RecordBalanced(g: DiGraph, u: string, v: string, k: EdgeKind)
    requires Balanced(g)
    ensures Balanced(Record(g, u, v, k))
  {
    var r := Record(g, u, v, k);
    forall e | e in r ensures Consistent(r[e]) {
      RecordAt(g, u, v, k, e);
      assert r[e] == Get(r, e);
    }
  }

  /** Mention edges from `uid` to each of `names`, in order. */
  function MentionEdges(g: DiGraph, uid: string, names: seq<string>): DiGraph
    decreases |names|
  {
    if names == [] then g
    else Record(MentionEdges(g, uid, names[..|names| - 1]), uid, names[|names| - 1], Mention)
  }

  /** One more mention extends the pass by one interaction. */
  lemma MentionEdgesNext(g: DiGraph, uid: string, names: seq<string>, i: nat)
    requires i < |names|
    ensures MentionEdges(g, uid, names[..i + 1]) == Record(MentionEdges(g, uid, names[..i]), uid, names[i], Mention)
  {
    assert names[..i + 1][..i] == names[..i];
  }

  /** The mention pass adds an edge (uid, n) for each mentioned name n and nothing else. */
  lemma {:induction false} MentionEdgesKeys(g: DiGraph, uid: string, names: seq<string>)
    ensures forall e :: e in MentionEdges(g, uid, names) <==> e in g || (e.0 == uid && e.1 in names)
    decreases |names|
  {
    if names != [] {
      var n := |names| - 1;
      MentionEdgesKeys(g, uid, names[..n]);
      assert names == names[..n] + [names[n]];
    }
  }

  /** The mention pass raises the mention counter and the weight of (uid, n) by the number of
      times n is mentioned, and no other counter. */
  lemma {:induction false} MentionEdgesAt(g: DiGraph, uid: string, names: seq<string>, e: (string, string))
    ensures Get(MentionEdges(g, uid, names), e).weight
      == Get(g, e).weight + (if e.0 == uid then Occ(names, e.1) else 0)
    ensures Get(MentionEdges(g, uid, names), e).mention
      == Get(g, e).mention + (if e.0 == uid then Occ(names, e.1) else 0)
    ensures Get(MentionEdges(g, uid, names), e).retweet == Get(g, e).retweet
    ensures Get(MentionEdges(g, uid, names), e).quote == Get(g, e).quote
    ensures Get(MentionEdges(g, uid, names), e).reply == Get(g, e).reply
    decreases |names|
  {
    if names != [] {
      var n := |names| - 1;
      var last := names[n];
      var g0 := MentionEdges(g, uid, names[..n]);
      MentionEdgesAt(g, uid, names[..n], e);
      RecordAt(g0, uid, last, Mention, e);
      assert Occ(names, e.1) == Occ(names[..n], e.1) + (if last == e.1 then 1 else 0);
    }
  }

  /** Mention edges keep the weight equal to the sum of the kind counters. */
  lemma {:induction false} MentionEdgesBalanced(g: DiGraph, uid: string, names: seq<string>)
    requires Balanced(g)
    ensures Balanced(MentionEdges(g, uid, names))
    decreases |names|
  {
    if names != [] {
      var n := |names| - 1;
      MentionEdgesBalanced(g, uid, names[..n]);
      RecordBalanced(MentionEdges(g, uid, names[..n]), uid, names[n], Mention);
    }
  }

  /** An undirected graph: the edge between a and b is keyed by the set {a, b}, a one-element
      set for a self-loop, so (a, b) and (b, a) name the same edge. */
  type Graph = map<set<string>, int>

  function Link(a: string, b: string): set<string> { {a, b} }

  function WeightOf(g: Graph, e: set<string>): int {
    if e in g then g[e] else 0
  }

  function Ends(g: Graph): set<string> {
    set e, x | e in g && x in e :: x
  }

  /** `has_edge` / `weight += 1` / `add_edge(..., weight=1)`. */
  function IncEdge(g: Graph, e: set<string>): Graph {
    if e in g then g[e := g[e] + 1] else g[e := 1]
  }

  /** Increment every edge of es, in order. */
  function IncAll(g: Graph, es: seq<set<string>>): Graph
    decreases |es|
  {
    if es == [] then g else IncEdge(IncAll(g, es[..|es| - 1]), es[|es| - 1])
  }

  /** After the increments, f is an edge exactly when it was one or is among es, and its
      weight has grown by the number of times es lists it. */
  lemma {:induction false} IncAllAt(g: Graph, es: seq<set<string>>, f: set<string>)
    ensures f in IncAll(g, es) <==> f in g || f in es
    ensures WeightOf(IncAll(g, es), f) == WeightOf(g, f) + Occ(es, f)
    decreases |es|
  {
    if es != [] {
      var n := |es| - 1;
      IncAllAt(g, es[..n], f);
      assert es == es[..n] + [es[n]];
    }
  }

  /** Incrementing the edges of a + b is incrementing those of a, then those of b. */
  lemma {:induction false} IncAllAppend(g: Graph, a: seq<set<string>>, b: seq<set<string>>)
    ensures IncAll(g, a + b) == IncAll(IncAll(g, a), b)
    decreases |b|
  {
    if b == [] {
      assert a + b == a;
    } else {
      var n := |b| - 1;
      assert (a + b)[..|a + b| - 1] == a + b[..n];
      IncAllAppend(g, a, b[..n]);
    }
  }
}
