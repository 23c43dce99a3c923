/** What create_user_interaction_network keeps while it walks the tweets: the directed
    interaction graph, the per-user property table `userProp`, and how one sighting of a
    user object updates that table under each schema version. */
module UserGraph {
  import opened Prelude
  import opened Graphs
  import opened Tweets

  /** `edge_selector`: the kinds of interaction to record. */
  type Selector = set<EdgeKind>

  /** One row of `userProp`: the copied profile members, and the timestamp range seen. */
  datatype UserProp = UserProp(attrs: Object, tstampMin: int, tstampMax: int)

  /** `userProp`, keyed by the lower-cased handle. */
  type PropTable = map<string, UserProp>

  /** What one pass carries from one tweet to the next: the graph, the property table, and
      the locals `rid`, `qid` and `mid`, which keep their value across iterations of the
      loop over tweets (None while never assigned). */
  datatype UserState = UserState(
    net: DiGraph,
    userProp: PropTable,
    rid: Option<string>,
    qid: Option<string>,
    mid: Option<string>)

  const Initial := UserState(map[], map[], None, None, None)

  /** What the pass produces. The source returns only `net`; `userProp` is computed and then
      dropped, and is kept here as a second output. */
  datatype UserNetwork = UserNetwork(net: DiGraph, userProp: PropTable)

  function Output(r: Result<UserState, Error>): Result<UserNetwork, Error> {
    match r
    case Success(s) => Success(UserNetwork(s.net, s.userProp))
    case Failure(e) => Failure(e)
  }

  /** The row of `name` exists and its timestamp range covers `ts`. */
  predicate Covers(props: PropTable, name: string, ts: int) {
    name in props && props[name].tstampMin <= ts <= props[name].tstampMax
  }

  /** The row created on the first sighting of a user. */
  function NewRow(idStr: Value): UserProp {
    UserProp(map["id_str" := idStr], MaxSize, 0)
  }

  /** Copy each member of fs that u holds with a non-null value. */
  function CopyFields(attrs: Object, u: Object, fs: seq<string>): Object
    decreases |fs|
  {
    if fs == [] then attrs
    else
      var a := CopyFields(attrs, u, fs[..|fs| - 1]);
      var f := fs[|fs| - 1];
      if HasNonNull(u, f) then a[f := u[f]] else a
  }

  /** After the copy, a listed member that u holds non-null has u's value; every other member
      is as before. */
  lemma {:induction false} CopyFieldsAt(attrs: Object, u: Object, fs: seq<string>, f: string)
    ensures f in CopyFields(attrs, u, fs) <==> f in attrs || (f in fs && HasNonNull(u, f))
    ensures f in CopyFields(attrs, u, fs) ==>
      CopyFields(attrs, u, fs)[f] == if f in fs && HasNonNull(u, f) then u[f] else attrs[f]
    decreases |fs|
  {
    if fs != [] {
      var n := |fs| - 1;
      CopyFieldsAt(attrs, u, fs[..n], f);
      assert fs == fs[..n] + [fs[n]];
    }
  }

  /** The members of fs that u holds non-null: those the copy writes. */
  function Written(u: Object, fs: seq<string>): set<string> {
    set f | f in fs && HasNonNull(u, f)
  }

  /** The copy adds exactly the written members to the keys and keeps every other member. */
  lemma CopyFieldsFrame(attrs: Object, u: Object, fs: seq<string>)
    ensures CopyFields(attrs, u, fs).Keys == attrs.Keys + Written(u, fs)
    ensures forall k :: k in attrs && k !in Written(u, fs) ==> CopyFields(attrs, u, fs)[k] == attrs[k]
  {
    forall k ensures k in CopyFields(attrs, u, fs) <==> k in attrs || k in Written(u, fs) {
      CopyFieldsAt(attrs, u, fs, k);
    }
    forall k | k in attrs && k !in Written(u, fs) ensures CopyFields(attrs, u, fs)[k] == attrs[k] {
      CopyFieldsAt(attrs, u, fs, k);
    }
  }

  // ---------------------------------------------------------------- version 1

  /** The members copied from a version-1 user object. */
  const FieldsV1: seq<string> := ["id_str", "screen_name", "friends_count", "followers_count", "statuses_count"]

  /** One sighting of a version-1 user object at time ts. */
  function SightV1(props: PropTable, u: UserV1, ts: int): PropTable {
    var name := Lower(ScreenName(u));
    var p := if name in props then props[name] else NewRow(u["id_str"]);
    props[name := UserProp(CopyFields(p.attrs, u, FieldsV1), Min(p.tstampMin, ts), Max(p.tstampMax, ts))]
  }

  /** A sighting adds the user's row if missing and changes no other row; the row then covers
      ts, its range only widens, a first sighting starts from `id_str`, `sys.maxsize` and 0,
      and every listed member the object holds non-null overwrites the stored one. */
  lemma SightV1Effect(props: PropTable, u: UserV1, ts: int)
    ensures var r, name := SightV1(props, u, ts), Lower(ScreenName(u));
      && r.Keys == props.Keys + {name}
      && (forall n :: n in props && n != name ==> r[n] == props[n])
      && Covers(r, name, ts)
      && (name in props ==>
            r[name].tstampMin == Min(props[name].tstampMin, ts) && r[name].tstampMax == Max(props[name].tstampMax, ts))
      && (name !in props ==>
            r[name].tstampMin == Min(MaxSize, ts) && r[name].tstampMax == Max(0, ts)
            && "id_str" in r[name].attrs && r[name].attrs["id_str"] == u["id_str"])
      && (forall f :: f in FieldsV1 && HasNonNull(u, f) ==> f in r[name].attrs && r[name].attrs[f] == u[f])
      && (name in props ==>
            r[name].attrs.Keys == props[name].attrs.Keys + Written(u, FieldsV1)
            && forall k :: k in props[name].attrs && k !in Written(u, FieldsV1) ==>
                 r[name].attrs[k] == props[name].attrs[k])
      && (name !in props ==> r[name].attrs.Keys == {"id_str"} + Written(u, FieldsV1))
  {
    var name := Lower(ScreenName(u));
    var p := if name in props then props[name] else NewRow(u["id_str"]);
    forall f | f in FieldsV1 && HasNonNull(u, f)
      ensures f in CopyFields(p.attrs, u, FieldsV1) && CopyFields(p.attrs, u, FieldsV1)[f] == u[f]
    {
      CopyFieldsAt(p.attrs, u, FieldsV1, f);
    }
    CopyFieldsAt(p.attrs, u, FieldsV1, "id_str");
    CopyFieldsFrame(p.attrs, u, FieldsV1);
  }

  /** A sighting at ts covers ts in the user's own row. */
  lemma SightV1CoversOwn(props: PropTable, u: UserV1, ts: int)
    ensures Covers(SightV1(props, u, ts), Lower(ScreenName(u)), ts)
  {
  }

  /** A sighting never narrows the range of any row. */
  lemma SightV1KeepsCover(props: PropTable, u: UserV1, ts: int, name: string, ts': int)
    requires Covers(props, name, ts')
    ensures Covers(SightV1(props, u, ts), name, ts')
  {
  }

  /** The sightings of a list of users, in order. */
  function SightAllV1(props: PropTable, users: seq<UserV1>, ts: int): PropTable
    decreases |users|
  {
    if users == [] then props
    else SightV1(SightAllV1(props, users[..|users| - 1], ts), users[|users| - 1], ts)
  }

  /** After the loop over `users`, every user of the list has a row that covers ts. */
  lemma {:induction false} SightAllV1Covers(props: PropTable, users: seq<UserV1>, ts: int)
    ensures forall u :: u in users ==> Covers(SightAllV1(props, users, ts), Lower(ScreenName(u)), ts)
    decreases |users|
  {
    if users != [] {
      var n := |users| - 1;
      var before := SightAllV1(props, users[..n], ts);
      SightAllV1Covers(props, users[..n], ts);
      assert SightAllV1(props, users, ts) == SightV1(before, users[n], ts);
      forall u | u in users
        ensures Covers(SightV1(before, users[n], ts), Lower(ScreenName(u)), ts)
      {
        if u == users[n] {
          SightV1CoversOwn(before, u, ts);
        } else {
          assert u in users[..n] by { assert users == users[..n] + [users[n]]; }
          SightV1KeepsCover(before, users[n], ts, Lower(ScreenName(u)), ts);
        }
      }
    }
  }

  /** Lines 178-200: one sighting, writing into the table as the source does. */
  method RegisterUserV1(props: PropTable, u: UserV1, ts: int) returns (r: PropTable)
    ensures r == SightV1(props, u, ts)
  {
    var name := Lower(ScreenName(u));
    r := props;
    if name !in r {
      r := r[name := NewRow(u["id_str"])];
    }
    var attrs := CopyListed(r[name].attrs, u, FieldsV1);
    r := r[name := r[name].(attrs := attrs)];
    r := r[name := r[name].(tstampMin := Min(r[name].tstampMin, ts))];
    r := r[name := r[name].(tstampMax := Max(r[name].tstampMax, ts))];
  }

  /** Lines 177-200: the loop over the users collected for one tweet. */
  method RegisterUsersV1(props: PropTable, users: seq<UserV1>, ts: int) returns (r: PropTable)
    ensures r == SightAllV1(props, users, ts)
  {
    r := props;
    for i := 0 to |users|
      invariant r == SightAllV1(props, users[..i], ts)
    {
      assert users[..i + 1][..i] == users[..i];
      r := RegisterUserV1(r, users[i], ts);
    }
    assert users[..|users|] == users;
  }

  // ---------------------------------------------------------------- version 2

  /** The members `id` and `username` of a version-2 user object, which are always strings. */
  function ObjectV2(u: UserV2): Object {
    map["id" := Str(u.id), "username" := Str(u.username)]
  }

  const IdFieldsV2: seq<string> := ["id", "username"]

  /** The members of `public_metrics` that are copied; `following_count` is stored as
      `friends_count`. */
  const MetricsV2: seq<string> := ["following_count", "followers_count", "tweet_count"]

  function MetricKey(f: string): string {
    if f == "following_count" then "friends_count" else f
  }

  /** Copy each listed metric that `public_metrics` holds non-null, under its stored name. */
  function CopyMetrics(attrs: Object, pm: Option<Object>, fs: seq<string>): Object
    decreases |fs|
  {
    if fs == [] then attrs
    else
      var a := CopyMetrics(attrs, pm, fs[..|fs| - 1]);
      var f := fs[|fs| - 1];
      CopyMetricStep(a, pm, f)
  }

  /** The `public_metrics` member stored under key g, if any. */
  function MetricSource(g: string): Option<string> {
    if g == "friends_count" then Some("following_count")
    else if g == "followers_count" || g == "tweet_count" then Some(g)
    else None
  }

  predicate MetricWritten(pm: Option<Object>, g: string) {
    MetricSource(g).Some? && pm.Some? && HasNonNull(pm.value, MetricSource(g).value)
  }

  /** After the metrics copy, `friends_count` holds a non-null `following_count`,
      `followers_count` and `tweet_count` hold their non-null namesakes, and every other key
      (`following_count` included) is as before. */
  lemma CopyMetricsAt(attrs: Object, pm: Option<Object>, g: string)
    ensures g in CopyMetrics(attrs, pm, MetricsV2) <==> g in attrs || MetricWritten(pm, g)
    ensures g in CopyMetrics(attrs, pm, MetricsV2) ==>
      CopyMetrics(attrs, pm, MetricsV2)[g] ==
        if MetricWritten(pm, g) then pm.value[MetricSource(g).value] else attrs[g]
  {
    var a1 := CopyMetricStep(attrs, pm, "following_count");
    var a2 := CopyMetricStep(a1, pm, "followers_count");
    var a3 := CopyMetricStep(a2, pm, "tweet_count");
    assert MetricsV2[..2] == ["following_count", "followers_count"];
    assert MetricsV2[..2][..1] == ["following_count"];
    assert MetricsV2[..2][..1][..0] == [];
    assert CopyMetrics(attrs, pm, ["following_count"]) == a1;
    assert CopyMetrics(attrs, pm, ["following_count", "followers_count"]) == a2;
    assert CopyMetrics(attrs, pm, MetricsV2) == a3;
  }

  /** The stored names of the metrics that `public_metrics` holds non-null: those the copy
      writes. */
  function WrittenMetrics(pm: Option<Object>): set<string> {
    set g | g in ["friends_count", "followers_count", "tweet_count"] && MetricWritten(pm, g)
  }

  /** The metrics copy adds exactly the written metrics to the keys and keeps every other
      member. */
  lemma CopyMetricsFrame(attrs: Object, pm: Option<Object>)
    ensures CopyMetrics(attrs, pm, MetricsV2).Keys == attrs.Keys + WrittenMetrics(pm)
    ensures forall k :: k in attrs && k !in WrittenMetrics(pm) ==> CopyMetrics(attrs, pm, MetricsV2)[k] == attrs[k]
  {
    forall k ensures k in CopyMetrics(attrs, pm, MetricsV2) <==> k in attrs || k in WrittenMetrics(pm) {
      CopyMetricsAt(attrs, pm, k);
    }
    forall k | k in attrs && k !in WrittenMetrics(pm) ensures CopyMetrics(attrs, pm, MetricsV2)[k] == attrs[k] {
      CopyMetricsAt(attrs, pm, k);
    }
  }

  function CopyMetricStep(a: Object, pm: Option<Object>, f: string): Object {
    if pm.Some? && HasNonNull(pm.value, f) then a[MetricKey(f) := pm.value[f]] else a
  }

  /** One sighting of a version-2 user object: the row is created or updated, but its
      timestamp range is left alone. */
  function SightV2(props: PropTable, u: UserV2): PropTable {
    var name := Lower(u.username);
    var p := if name in props then props[name] else NewRow(Str(u.id));
    var a := CopyMetrics(CopyFields(p.attrs, ObjectV2(u), IdFieldsV2), u.publicMetrics, MetricsV2);
    props[name := p.(attrs := a)]
  }

  /** A version-2 sighting adds the user's row if missing, changes no other row and no
      timestamp; a new row holds `id_str == id`, `sys.maxsize` and 0; `id` and `username` are
      overwritten, and so is each metric `public_metrics` holds non-null. */
  lemma SightV2Effect(props: PropTable, u: UserV2)
    ensures var r, name := SightV2(props, u), Lower(u.username);
      && r.Keys == props.Keys + {name}
      && (forall n :: n in props && n != name ==> r[n] == props[n])
      && (name in props ==>
            r[name].tstampMin == props[name].tstampMin && r[name].tstampMax == props[name].tstampMax)
      && (name !in props ==>
            r[name].tstampMin == MaxSize && r[name].tstampMax == 0
            && "id_str" in r[name].attrs && r[name].attrs["id_str"] == Str(u.id))
      && "id" in r[name].attrs && r[name].attrs["id"] == Str(u.id)
      && "username" in r[name].attrs && r[name].attrs["username"] == Str(u.username)
      && (forall g :: MetricWritten(u.publicMetrics, g) ==>
            g in r[name].attrs && r[name].attrs[g] == u.publicMetrics.value[MetricSource(g).value])
  {
    var name := Lower(u.username);
    var p := if name in props then props[name] else NewRow(Str(u.id));
    var a0 := CopyFields(p.attrs, ObjectV2(u), IdFieldsV2);
    CopyFieldsAt(p.attrs, ObjectV2(u), IdFieldsV2, "id");
    CopyFieldsAt(p.attrs, ObjectV2(u), IdFieldsV2, "username");
    CopyFieldsAt(p.attrs, ObjectV2(u), IdFieldsV2, "id_str");
    CopyMetricsAt(a0, u.publicMetrics, "id");
    CopyMetricsAt(a0, u.publicMetrics, "username");
    CopyMetricsAt(a0, u.publicMetrics, "id_str");
    forall g | MetricWritten(u.publicMetrics, g)
      ensures g in SightV2(props, u)[name].attrs
      ensures SightV2(props, u)[name].attrs[g] == u.publicMetrics.value[MetricSource(g).value]
    {
      CopyMetricsAt(a0, u.publicMetrics, g);
    }
  }
  /** The attributes of the sighted row: an existing row gains `id`, `username` and the written
      metrics and keeps every other attribute; a new row holds exactly `id_str`, `id`,
      `username` and the written metrics. */
  lemma SightV2Frame(props: PropTable, u: UserV2)
    ensures var r, name := SightV2(props, u), Lower(u.username);
      && name in r
      && (name in props ==>
            r[name].attrs.Keys == props[name].attrs.Keys + {"id", "username"} + WrittenMetrics(u.publicMetrics)
            && forall k :: k in props[name].attrs && k != "id" && k != "username" && k !in WrittenMetrics(u.publicMetrics) ==>
                 r[name].attrs[k] == props[name].attrs[k])
      && (name !in props ==> r[name].attrs.Keys == {"id_str", "id", "username"} + WrittenMetrics(u.publicMetrics))
  {
    var name := Lower(u.username);
    var p := if name in props then props[name] else NewRow(Str(u.id));
    var a0 := CopyFields(p.attrs, ObjectV2(u), IdFieldsV2);
    CopyFieldsFrame(p.attrs, ObjectV2(u), IdFieldsV2);
    assert Written(ObjectV2(u), IdFieldsV2) == {"id", "username"};
    CopyMetricsFrame(a0, u.publicMetrics);
    var a := CopyMetrics(a0, u.publicMetrics, MetricsV2);
    assert SightV2(props, u)[name].attrs == a;
    assert a.Keys == p.attrs.Keys + {"id", "username"} + WrittenMetrics(u.publicMetrics);
    if name !in props {
      assert p.attrs.Keys == {"id_str"};
    }
  }


  function SightAllV2(props: PropTable, users: seq<UserV2>): PropTable
    decreases |users|
  {
    if users == [] then props
    else SightV2(SightAllV2(props, users[..|users| - 1]), users[|users| - 1])
  }

  /** The loop over `users` only adds rows: it never moves the timestamp range of a row that
      existed, and rows it creates are still at the sentinels `sys.maxsize` and 0. */
  lemma {:induction false} SightAllV2Ranges(props: PropTable, users: seq<UserV2>, name: string)
    ensures name in props ==>
      (name in SightAllV2(props, users)
       && SightAllV2(props, users)[name].tstampMin == props[name].tstampMin
       && SightAllV2(props, users)[name].tstampMax == props[name].tstampMax)
    ensures name !in props && name in SightAllV2(props, users) ==>
      SightAllV2(props, users)[name].tstampMin == MaxSize && SightAllV2(props, users)[name].tstampMax == 0
    decreases |users|
  {
    if users != [] {
      var n := |users| - 1;
      var before := SightAllV2(props, users[..n]);
      assert SightAllV2(props, users) == SightV2(before, users[n]);
      SightAllV2Ranges(props, users[..n], name);
      SightV2Range(before, users[n], name);
    }
  }

  /** After the loop over `users`, the table holds a row exactly for the names it held and the
      lower-cased usernames of the list. */
  lemma {:induction false} SightAllV2Keys(props: PropTable, users: seq<UserV2>, name: string)
    ensures name in SightAllV2(props, users) <==> name in props || exists u :: u in users && Lower(u.username) == name
    decreases |users|
  {
    if users != [] {
      var n := |users| - 1;
      var before := SightAllV2(props, users[..n]);
      assert SightAllV2(props, users) == SightV2(before, users[n]);
      SightAllV2Keys(props, users[..n], name);
      SightV2Range(before, users[n], name);
      HandleSnoc(users, name);
    }
  }

  /** Some user of a non-empty list has a handle exactly when some user before the last does or
      the last one does. */
  lemma HandleSnoc(users: seq<UserV2>, name: string)
    requires users != []
    ensures (exists u :: u in users && Lower(u.username) == name) <==>
      (exists u :: u in users[..|users| - 1] && Lower(u.username) == name)
      || Lower(users[|users| - 1].username) == name
  {
    var n := |users| - 1;
    if exists u :: u in users && Lower(u.username) == name {
      var u :| u in users && Lower(u.username) == name;
      var i :| 0 <= i < |users| && users[i] == u;
      if i < n {
        assert users[..n][i] == u;
      }
    }
    if exists u :: u in users[..n] && Lower(u.username) == name {
      var u :| u in users[..n] && Lower(u.username) == name;
      var i :| 0 <= i < n && users[..n][i] == u;
      assert users[i] == u;
    }
    if Lower(users[n].username) == name {
      assert users[n] in users;
    }
  }

  /** One version-2 sighting, seen from one row: it exists afterwards exactly when it did before
      or belongs to the user, and its range is kept, or starts at `sys.maxsize` and 0. */
  lemma SightV2Range(props: PropTable, u: UserV2, name: string)
    ensures name in SightV2(props, u) <==> name in props || Lower(u.username) == name
    ensures name in props ==>
      SightV2(props, u)[name].tstampMin == props[name].tstampMin
      && SightV2(props, u)[name].tstampMax == props[name].tstampMax
    ensures name !in props && name in SightV2(props, u) ==>
      SightV2(props, u)[name].tstampMin == MaxSize && SightV2(props, u)[name].tstampMax == 0
  {
  }

  /** Lines 354-355: widen the range of one row (after the loop, the last user's). */
  function Widen(props: PropTable, name: string, ts: int): PropTable
    requires name in props
  {
    props[name := props[name].(tstampMin := Min(props[name].tstampMin, ts),
                               tstampMax := Max(props[name].tstampMax, ts))]
  }

  /** Lines 334-352: one version-2 sighting, writing into the table as the source does. */
  method RegisterUserV2(props: PropTable, u: UserV2) returns (r: PropTable)
    ensures r == SightV2(props, u)
  {
    var name := Lower(u.username);
    r := props;
    if name !in r {
      r := r[name := NewRow(Str(u.id))];
    }
    var attrs := CopyListed(r[name].attrs, ObjectV2(u), IdFieldsV2);
    attrs := CopyMetricFields(attrs, u.publicMetrics);
    r := r[name := r[name].(attrs := attrs)];
  }

  /** Lines 185-193 (and 341-343): the loop over the listed fields, copying the non-null ones. */
  method CopyListed(attrs: Object, obj: Object, fs: seq<string>) returns (r: Object)
    ensures r == CopyFields(attrs, obj, fs)
  {
    r := attrs;
    for i := 0 to |fs|
      invariant r == CopyFields(attrs, obj, fs[..i])
    {
      var f := fs[i];
      assert fs[..i + 1][..i] == fs[..i];
      if HasNonNull(obj, f) {
        r := r[f := obj[f]];
      }
    }
    assert fs[..|fs|] == fs;
  }

  /** Lines 344-352: the loop over the metrics of `public_metrics`. */
  method CopyMetricFields(attrs: Object, pm: Option<Object>) returns (r: Object)
    ensures r == CopyMetrics(attrs, pm, MetricsV2)
  {
    r := attrs;
    for i := 0 to |MetricsV2|
      invariant r == CopyMetrics(attrs, pm, MetricsV2[..i])
    {
      var f := MetricsV2[i];
      assert MetricsV2[..i + 1][..i] == MetricsV2[..i];
      if pm.Some? && HasNonNull(pm.value, f) {
        r := r[MetricKey(f) := pm.value[f]];
      }
    }
    assert MetricsV2[..|MetricsV2|] == MetricsV2;
  }

  /** Lines 333-352: the loop over the users collected for one tweet. */
  method RegisterUsersV2(props: PropTable, users: seq<UserV2>) returns (r: PropTable)
    ensures r == SightAllV2(props, users)
  {
    r := props;
    for i := 0 to |users|
      invariant r == SightAllV2(props, users[..i])
    {
      assert users[..i + 1][..i] == users[..i];
      r := RegisterUserV2(r, users[i]);
    }
    assert users[..|users|] == users;
  }
}
