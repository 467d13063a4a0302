/** Which routes enter the sitemap (GET routes that are neither under an
    ignored URI prefix nor behind an `auth*` middleware), and the configured
    column-equality filters added to every model query. */
module RouteConditions {
  import opened Framework

  /** A model query under construction: the model class and its `where`
      filters, in the order they were added. */
  datatype Query = Query(model: string, wheres: seq<(string, Scalar)>)

  /** `ltrim(s, '/')`: `s` without its leading slashes. */
  function LTrimSlashes(s: string): (r: string)
    ensures |r| <= |s| && r == s[|s| - |r|..]
    ensures forall i :: 0 <= i < |s| - |r| ==> s[i] == '/'
    ensures r == [] || r[0] != '/'
  {
    if s != [] && s[0] == '/' then LTrimSlashes(s[1..]) else s
  }

  /** `routeHandlesGetMethod`: "GET" is one of the route's methods. */
  function RouteHandlesGetMethod(route: Route): (r: bool)
    ensures r <==> exists i :: 0 <= i < |route.methods| && route.methods[i] == "GET"
  {
    "GET" in route.methods
  }

  /** An ignore entry, stripped of its leading slashes, is a prefix of the URI. */
  predicate IgnoreEntryMatches(entry: string, uri: string)
  {
    LTrimSlashes(entry) <= uri
  }

  /** The first loop of `routeShouldBeIgnored`: some ignore entry, stripped of
      its leading slashes, is a prefix of the URI. */
  function UriIsIgnored(ignoreRoutes: seq<string>, uri: string): (r: bool)
    ensures r <==> exists i :: 0 <= i < |ignoreRoutes| && IgnoreEntryMatches(ignoreRoutes[i], uri)
  {
    if ignoreRoutes == [] then false
    else if IgnoreEntryMatches(ignoreRoutes[0], uri) then true
    else
      var r := UriIsIgnored(ignoreRoutes[1..], uri);
      assert forall i :: 1 <= i < |ignoreRoutes| ==> ignoreRoutes[i] == ignoreRoutes[1..][i - 1];
      r
  }

  /** The second loop of `routeShouldBeIgnored`: some middleware name starts with "auth". */
  function HasAuthMiddleware(middleware: seq<string>): (r: bool)
    ensures r <==> exists i :: 0 <= i < |middleware| && "auth" <= middleware[i]
  {
    if middleware == [] then false
    else if "auth" <= middleware[0] then true
    else
      var r := HasAuthMiddleware(middleware[1..]);
      assert forall i :: 1 <= i < |middleware| ==> middleware[i] == middleware[1..][i - 1];
      r
  }

  /** `routeShouldBeIgnored`: the URI starts with an ignore entry (leading
      slashes of the entry removed), or a middleware name starts with "auth". */
  function RouteShouldBeIgnored(ignoreRoutes: seq<string>, route: Route): (r: bool)
    ensures r <==> ((exists i :: 0 <= i < |ignoreRoutes| && IgnoreEntryMatches(ignoreRoutes[i], route.uri))
                 || (exists i :: 0 <= i < |route.middleware| && "auth" <= route.middleware[i]))
  {
    UriIsIgnored(ignoreRoutes, route.uri) || HasAuthMiddleware(route.middleware)
  }

  /** The decision depends on the set of ignore entries only, not on their
      order or repetitions, and never on the route's name. */
  lemma IgnoreIsOrderIndependent(a: seq<string>, b: seq<string>, r1: Route, r2: Route)
    requires forall x :: x in a <==> x in b
    requires r1.uri == r2.uri && r1.middleware == r2.middleware
    ensures RouteShouldBeIgnored(a, r1) == RouteShouldBeIgnored(b, r2)
  {
    if UriIsIgnored(a, r1.uri) {
      var i :| 0 <= i < |a| && IgnoreEntryMatches(a[i], r1.uri);
      assert a[i] in b;
    }
    if UriIsIgnored(b, r2.uri) {
      var i :| 0 <= i < |b| && IgnoreEntryMatches(b[i], r2.uri);
      assert b[i] in a;
    }
  }

  /** An ignore entry "/admin" excludes the URI "admin/users": its leading
      slash is stripped before the comparison. */
  lemma LeadingSlashStripped(route: Route)
    requires route.uri == "admin/users"
    ensures RouteShouldBeIgnored(["/admin"], route)
  {
    assert LTrimSlashes("/admin") == "admin";
    assert IgnoreEntryMatches(["/admin"][0], route.uri);
  }

  /** The filters `queryConditions` adds for a table: the configured
      conditions whose column exists on it, in configuration order. */
  function SelectedConditions(env: Env, table: string, conditions: seq<(string, Scalar)>): (r: seq<(string, Scalar)>)
    ensures |r| <= |conditions|
    ensures forall c :: c in r <==> c in conditions && HasColumn(env, table, c.0)
  {
    if conditions == [] then []
    else
      var init := conditions[..|conditions| - 1];
      var last := conditions[|conditions| - 1];
      assert conditions == init + [last];
      SelectedConditions(env, table, init) + (if HasColumn(env, table, last.0) then [last] else [])
  }

  /** Selection keeps configuration order: it distributes over concatenation. */
  lemma {:induction false} SelectedConditionsAppend(env: Env, table: string, a: seq<(string, Scalar)>, b: seq<(string, Scalar)>)
    ensures SelectedConditions(env, table, a + b) == SelectedConditions(env, table, a) + SelectedConditions(env, table, b)
    decreases |b|
  {
    if b == [] {
      assert a + b == a;
    } else {
      var init := b[..|b| - 1];
      assert (a + b)[..|a + b| - 1] == a + init;
      assert (a + b)[|a + b| - 1] == b[|b| - 1];
      SelectedConditionsAppend(env, table, a, init);
    }
  }

  /** `queryConditions`: adds one equality filter per configured column that
      exists on the model's table, in configuration order. */
  method QueryConditions(env: Env, conditions: seq<(string, Scalar)>, query: Query, table: string)
    returns (q: Query)
    ensures q == query.(wheres := query.wheres + SelectedConditions(env, table, conditions))
  {
    q := query;
    var k := 0;
    while k < |conditions|
      invariant 0 <= k <= |conditions|
      invariant q == query.(wheres := query.wheres + SelectedConditions(env, table, conditions[..k]))
    {
      var (column, expected) := conditions[k];
      assert conditions[..k + 1][..k] == conditions[..k];
      q := if HasColumn(env, table, column) then q.(wheres := q.wheres + [(column, expected)]) else q;
      k := k + 1;
    }
    assert conditions[..k] == conditions;
  }

  /** A record satisfies every `where` filter of a query (an absent column never matches). */
  predicate Matches(rec: Record, wheres: seq<(string, Scalar)>)
  {
    forall i :: 0 <= i < |wheres| ==> wheres[i].0 in rec.fields && rec.fields[wheres[i].0] == wheres[i].1
  }

  /** The records a query selects from the store, in store order. */
  function Rows(env: Env, q: Query): (r: seq<Record>)
    ensures |r| <= |if q.model in env.store then env.store[q.model] else []|
    ensures forall rec :: rec in r <==> (q.model in env.store && rec in env.store[q.model] && Matches(rec, q.wheres))
  {
    FilterRecords(if q.model in env.store then env.store[q.model] else [], q.wheres)
  }

  function FilterRecords(recs: seq<Record>, wheres: seq<(string, Scalar)>): (r: seq<Record>)
    ensures |r| <= |recs|
    ensures forall rec :: rec in r <==> rec in recs && Matches(rec, wheres)
  {
    if recs == [] then []
    else
      var init := recs[..|recs| - 1];
      var last := recs[|recs| - 1];
      assert recs == init + [last];
      FilterRecords(init, wheres) + (if Matches(last, wheres) then [last] else [])
  }

  /** Filtering keeps store order and multiplicity: it distributes over concatenation. */
  lemma {:induction false} FilterRecordsAppend(a: seq<Record>, b: seq<Record>, wheres: seq<(string, Scalar)>)
    ensures FilterRecords(a + b, wheres) == FilterRecords(a, wheres) + FilterRecords(b, wheres)
    decreases |b|
  {
    if b == [] {
      assert a + b == a;
    } else {
      var init := b[..|b| - 1];
      assert (a + b)[..|a + b| - 1] == a + init;
      assert (a + b)[|a + b| - 1] == b[|b| - 1];
      FilterRecordsAppend(a, init, wheres);
    }
  }
}
