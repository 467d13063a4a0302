/** The generator: for every registered GET route that is not ignored, it
    resolves the controller parameters to candidate values (explicit binders,
    model records, enum cases), expands them into every combination, keeps
    the combinations the framework can bind, and appends one sitemap entry
    per kept combination, in route order. */
module SitemapGenerator {
  import opened Framework
  import Assoc
  import opened Expansion
  import opened RouteInfos
  import opened RouteConditions
  import opened RouteBinder

  /** The configuration tables a run reads. */
  datatype Config = Config(
    ignoreRoutes: seq<string>,
    queryConditions: seq<(string, Scalar)>,
    binder: BinderTable,
    infos: InfoConfig)

  /** One generated rule: URL, change frequency and priority. */
  datatype Rule = Rule(loc: string, frequency: string, priority: real)

  /** One sitemap entry. */
  datatype Url = Url(loc: string, lastModified: string, frequency: string, priority: real)

  // ---------------------------------------------------------------------
  // Emitting one combination (genRoute's leaf).

  /** `routeBindingsCanBeResolved`: an unnamed route never resolves;
      otherwise the framework's binding simulation decides. */
  function RouteBindingsCanBeResolved(env: Env, route: Route, params: ParamMap): (r: bool)
    ensures !Truthy(route.name) ==> !r
    ensures Truthy(route.name) ==> (r <==> env.resolves(route.name, params))
  {
    Truthy(route.name) && env.resolves(route.name, params)
  }

  /** The rule of a named route for the given parameters. */
  function RuleFor(cfg: Config, env: Env, route: Route, params: ParamMap): Rule
  {
    Rule(env.url(route.name, params), RouteFrequency(cfg.infos, route.name), RoutePriority(cfg.infos, route.name))
  }

  /** The leaf of `genRoute`: a complete combination yields a rule when the
      loop saw its last key (the map is not empty) and the bindings
      resolve; the route name is checked once more. */
  function Emit(cfg: Config, env: Env, route: Route, c: ParamMap): (r: seq<Rule>)
    ensures |r| <= 1
    ensures r != [] <==> |c| > 0 && Truthy(route.name) && env.resolves(route.name, c)
    ensures r != [] ==> r[0].loc == env.url(route.name, c)
  {
    if |c| > 0 && RouteBindingsCanBeResolved(env, route, c) && Truthy(route.name)
    then [RuleFor(cfg, env, route, c)]
    else []
  }

  /** The leaves over a sequence of combinations, in order. */
  function EmitAll(cfg: Config, env: Env, route: Route, cs: seq<ParamMap>): (r: seq<Rule>)
    ensures |r| <= |cs|
  {
    if cs == [] then []
    else EmitAll(cfg, env, route, cs[..|cs| - 1]) + Emit(cfg, env, route, cs[|cs| - 1])
  }

  lemma {:induction false} EmitAllAppend(cfg: Config, env: Env, route: Route, a: seq<ParamMap>, b: seq<ParamMap>)
    ensures EmitAll(cfg, env, route, a + b) == EmitAll(cfg, env, route, a) + EmitAll(cfg, env, route, b)
    decreases |b|
  {
    if b == [] {
      assert a + b == a;
    } else {
      var init := b[..|b| - 1];
      assert (a + b)[..|a + b| - 1] == a + init;
      assert (a + b)[|a + b| - 1] == b[|b| - 1];
      EmitAllAppend(cfg, env, route, a, init);
    }
  }

  /** Expansion over one more candidate. */
  lemma ExpandEachSnoc(p: ParamMap, i: nat, vs: seq<Value>, n: nat)
    requires i < |p| && p[i].1.Candidates? && n < |vs|
    ensures CandidateCount(Choose(p, i, vs[n])) < CandidateCount(p)
    ensures ExpandEach(p, i, vs[..n + 1]) == ExpandEach(p, i, vs[..n]) + Expand(Choose(p, i, vs[n]))
  {
    ChooseCount(p, i, vs[n]);
    assert vs[..n + 1][..n] == vs[..n];
  }

  /** `array_merge` over the first list's key is `Choose`: it keeps the keys
      distinct and leaves one list fewer. */
  lemma PutChooses(p: ParamMap, i: nat, v: Value)
    requires Assoc.DistinctKeys(p) && FirstCandidates(p) == Some(i)
    ensures Assoc.Put(p, p[i].0, Fixed(v)) == Choose(p, i, v)
    ensures Assoc.DistinctKeys(Choose(p, i, v))
    ensures CandidateCount(Choose(p, i, v)) < CandidateCount(p)
  {
    Assoc.PutAt(p, i, Fixed(v));
    ChooseCount(p, i, v);
    assert forall j :: 0 <= j < |p| ==> Choose(p, i, v)[j].0 == p[j].0;
  }

  /** One iteration of the closure: the rules of one more candidate follow. */
  lemma CandidateStep(cfg: Config, env: Env, route: Route, p: ParamMap, i: nat, n: nat,
                      uris: seq<Rule>, out0: seq<Rule>, out1: seq<Rule>)
    requires i < |p| && p[i].1.Candidates? && n < |p[i].1.values|
    requires out0 == uris + EmitAll(cfg, env, route, ExpandEach(p, i, p[i].1.values[..n]))
    requires out1 == out0 + EmitAll(cfg, env, route, Expand(Choose(p, i, p[i].1.values[n])))
    ensures out1 == uris + EmitAll(cfg, env, route, ExpandEach(p, i, p[i].1.values[..n + 1]))
  {
    var vs := p[i].1.values;
    ExpandEachSnoc(p, i, vs, n);
    RulesAppend(cfg, env, route, uris, ExpandEach(p, i, vs[..n]), Expand(Choose(p, i, vs[n])), out0, out1);
  }

  lemma RulesAppend(cfg: Config, env: Env, route: Route, uris: seq<Rule>, a: seq<ParamMap>, b: seq<ParamMap>,
                    out0: seq<Rule>, out1: seq<Rule>)
    requires out0 == uris + EmitAll(cfg, env, route, a)
    requires out1 == out0 + EmitAll(cfg, env, route, b)
    ensures out1 == uris + EmitAll(cfg, env, route, a + b)
  {
    EmitAllAppend(cfg, env, route, a, b);
  }

  /** A map without lists is a leaf of its own. */
  lemma LeafRules(cfg: Config, env: Env, route: Route, params: ParamMap)
    requires Complete(params)
    ensures EmitAll(cfg, env, route, Expand(params)) == Emit(cfg, env, route, params)
  {
    assert Expand(params) == [params];
    assert [params][..0] == [];
  }

  /** `genRoute`: walks the map in order; at the first list it expands that
      key over its candidates and returns; a map without lists is a leaf.
      The rules it appends are the leaves over the expansion, in order. */
  method GenRoute(cfg: Config, env: Env, route: Route, uris: seq<Rule>, params: ParamMap)
    returns (out: seq<Rule>)
    requires Assoc.DistinctKeys(params)
    ensures out == uris + EmitAll(cfg, env, route, Expand(params))
    decreases CandidateCount(params), 1
  {
    var filtered := false;
    var k := 0;
    while k < |params|
      invariant 0 <= k <= |params|
      invariant forall j :: 0 <= j < k ==> params[j].1.Fixed?
      invariant filtered <==> (k > 0 && params[k - 1].0 == params[|params| - 1].0)
    {
      if params[k].1.Candidates? {
        FirstCandidatesAt(params, k);
        out := GenCandidates(cfg, env, route, uris, params, k);
        return;
      }
      filtered := params[|params| - 1].0 == params[k].0;
      k := k + 1;
    }
    assert Complete(params);
    LeafRules(cfg, env, route, params);
    if filtered && RouteBindingsCanBeResolved(env, route, params) && Truthy(route.name) {
      out := uris + [RuleFor(cfg, env, route, params)];
    } else {
      out := uris;
    }
  }

  /** The closure `genRoute` maps over the first list (at position `k`): one
      recursive call per candidate, in list order, on the map with that key
      replaced by the candidate (`array_merge`). */
  method GenCandidates(cfg: Config, env: Env, route: Route, uris: seq<Rule>, params: ParamMap, k: nat)
    returns (out: seq<Rule>)
    requires Assoc.DistinctKeys(params) && FirstCandidates(params) == Some(k)
    ensures out == uris + EmitAll(cfg, env, route, Expand(params))
    decreases CandidateCount(params), 0
  {
    var (pName, param) := params[k];
    out := uris;
    var n := 0;
    while n < |param.values|
      invariant 0 <= n <= |param.values|
      invariant out == uris + EmitAll(cfg, env, route, ExpandEach(params, k, param.values[..n]))
    {
      var v := param.values[n];
      PutChooses(params, k, v);
      var next := Assoc.Put(params, pName, Fixed(v));
      var out' := GenRoute(cfg, env, route, out, next);
      CandidateStep(cfg, env, route, params, k, n, uris, out, out');
      out := out';
      n := n + 1;
    }
    assert param.values[..n] == param.values;
  }

  // ---------------------------------------------------------------------
  // Candidate lists: `setParamForEnum`, `setParamsForModel`,
  // `processWithRouteBinderParam`.

  /** The map `[pName => vals]` as both producers build it: the key is created
      with its first value, so without values the key is absent. */
  function Listing(pName: string, vals: seq<Value>): (r: ParamMap)
    ensures vals == [] <==> r == []
    ensures vals != [] ==> r == [(pName, Candidates(vals))]
  {
    if vals == [] then [] else [(pName, Candidates(vals))]
  }

  /** Appends one value under `pName`, creating the key first when absent. */
  method PushValue(r: ParamMap, pName: string, ghost vals: seq<Value>, x: Value) returns (r': ParamMap)
    requires r == Listing(pName, vals)
    ensures r' == Listing(pName, vals + [x])
  {
    r' := r;
    if pName !in Assoc.Keys(r') {
      r' := [(pName, Candidates([]))];
    }
    assert vals != [] ==> Assoc.Keys(r)[0] == pName;
    assert r'[0].1.values == vals;
    r' := [(pName, Candidates(r'[0].1.values + [x]))];
  }

  /** The enum cases' values, in `toArray` order. */
  function Plains(cases: seq<Scalar>): (vs: seq<Value>)
    ensures |vs| == |cases| && forall i :: 0 <= i < |cases| ==> vs[i] == Plain(cases[i])
  {
    seq(|cases|, i requires 0 <= i < |cases| => Plain(cases[i]))
  }

  /** `setParamForEnum`: every case value of the enum under `pName`, in order. */
  method SetParamForEnum(cases: seq<Scalar>, pName: string) returns (r: ParamMap)
    ensures r == Listing(pName, Plains(cases))
  {
    r := [];
    for k := 0 to |cases|
      invariant r == Listing(pName, Plains(cases[..k]))
    {
      assert Plains(cases[..k + 1]) == Plains(cases[..k]) + [Plain(cases[k])];
      r := PushValue(r, pName, Plains(cases[..k]), Plain(cases[k]));
    }
    assert cases[..|cases|] == cases;
  }

  /** What a model record contributes: the value of the chosen column (null
      when the record has no such attribute), or the record itself when no
      column is chosen (a falsy column name chooses none). */
  function Pick(rec: Record, field: Option<string>): Value
  {
    if field.Some? && Truthy(field.value)
    then Plain(if field.value in rec.fields then rec.fields[field.value] else Null)
    else Instance(rec)
  }

  function Picks(rows: seq<Record>, field: Option<string>): (vs: seq<Value>)
    ensures |vs| == |rows| && forall i :: 0 <= i < |rows| ==> vs[i] == Pick(rows[i], field)
  {
    seq(|rows|, i requires 0 <= i < |rows| => Pick(rows[i], field))
  }

  lemma PicksSnoc(rows: seq<Record>, field: Option<string>, t: nat)
    requires t < |rows|
    ensures Picks(rows[..t + 1], field) == Picks(rows[..t], field) + [Pick(rows[t], field)]
  {
  }

  /** The records of a model class that pass the configured conditions for
      its table, in query order. */
  function ModelRows(cfg: Config, env: Env, className: string, table: string): seq<Record>
  {
    Rows(env, Query(className, SelectedConditions(env, table, cfg.queryConditions)))
  }

  /** What `setParamsForModel` returns: every selected record, in order, as
      its chosen column or as itself; no key at all without records. */
  function ModelCandidates(cfg: Config, env: Env, className: string, table: string,
                           pName: string, field: Option<string>): (r: ParamMap)
    ensures ModelRows(cfg, env, className, table) == [] <==> r == []
    ensures ModelRows(cfg, env, className, table) != [] ==>
      |r| == 1 && r[0].0 == pName && r[0].1.Candidates? &&
      r[0].1.values == Picks(ModelRows(cfg, env, className, table), field)
  {
    Listing(pName, Picks(ModelRows(cfg, env, className, table), field))
  }

  function Min(a: int, b: int): int
  {
    if a <= b then a else b
  }

  /** Paging arithmetic: the page counter at the first empty page. */
  lemma PagesNeeded(n: nat, i: nat)
    requires n <= i * 10 <= n + 9
    ensures i == (n + 9) / 10
  {
  }

  /** The closure `setParamsForModel` maps over one page `rows[lo..hi]`. */
  method AddPage(r: ParamMap, pName: string, rows: seq<Record>, lo: nat, hi: nat, field: Option<string>)
    returns (r': ParamMap)
    requires lo <= hi <= |rows|
    requires r == Listing(pName, Picks(rows[..lo], field))
    ensures r' == Listing(pName, Picks(rows[..hi], field))
  {
    var page := rows[lo..hi];
    r' := r;
    for j := 0 to |page|
      invariant r' == Listing(pName, Picks(rows[..lo + j], field))
    {
      PicksSnoc(rows, field, lo + j);
      r' := PushValue(r', pName, Picks(rows[..lo + j], field), Pick(page[j], field));
    }
  }

  /** `setParamsForModel`: builds the model query with the configured
      conditions, then fetches pages of 10 at offset `i * 10` until a page
      comes back empty, appending each record's contribution. `requests`
      counts the page queries: one more than the number of non-empty pages. */
  method SetParamsForModel(cfg: Config, env: Env, className: string, table: string,
                           pName: string, field: Option<string>)
    returns (r: ParamMap, ghost requests: nat)
    ensures r == ModelCandidates(cfg, env, className, table, pName, field)
    ensures requests == (|ModelRows(cfg, env, className, table)| + 9) / 10 + 1
  {
    r := [];
    var i := 0;
    var q := QueryConditions(env, cfg.queryConditions, Query(className, []), table);
    assert q == Query(className, SelectedConditions(env, table, cfg.queryConditions));
    var rows := Rows(env, q);
    requests := 0;
    while true
      invariant i * 10 <= |rows| + 9
      invariant requests == i
      invariant r == Listing(pName, Picks(rows[..Min(i * 10, |rows|)], field))
      decreases |rows| + 10 - i * 10
    {
      var lo, hi := Min(i * 10, |rows|), Min(i * 10 + 10, |rows|);
      var page := rows[lo..hi];
      requests := requests + 1;
      var length := |page|;
      r := AddPage(r, pName, rows, lo, hi, field);
      i := i + 1;
      if length == 0 {
        break;
      }
    }
    assert rows[..|rows|] == rows;
    PagesNeeded(|rows|, i - 1);
  }

  /** What `processWithRouteBinderParam` returns for a parameter with a
      binder `[className, column]`: the model's records (as that column), the
      enum's values, or the "unhandled class type" error. */
  function BinderCandidates(cfg: Config, env: Env, route: Route, pName: string): (r: Result<ParamMap>)
    requires HasRouteBinderParam(cfg.binder, route, pName)
    ensures r.Success? ==> r.value == [] || (|r.value| == 1 && r.value[0].0 == pName && r.value[0].1.Candidates?)
    ensures r.Failure? ==> r.error.NoSuchClass? || r.error.UnhandledClassType?
  {
    var o := GetRouteBinderParam(cfg.binder, route, pName);
    var className := if |o| > 0 then o[0] else "";
    var field := if |o| > 1 then Some(o[1]) else None;
    match Reflect(env, className)
    case None => Failure(NoSuchClass(className))
    case Some(ModelClass(table)) => Success(ModelCandidates(cfg, env, className, table, pName, field))
    case Some(EnumClass(cases)) => Success(Listing(pName, Plains(cases)))
    case Some(OtherClass) => Failure(UnhandledClassType(className))
  }

  /** `processWithRouteBinderParam`. */
  method ProcessWithRouteBinderParam(cfg: Config, env: Env, route: Route, pName: string)
    returns (res: Result<ParamMap>)
    requires HasRouteBinderParam(cfg.binder, route, pName)
    ensures res == BinderCandidates(cfg, env, route, pName)
  {
    var o := GetRouteBinderParam(cfg.binder, route, pName);
    var modelClassName := if |o| > 0 then o[0] else "";
    var routeParamName := if |o| > 1 then Some(o[1]) else None;
    var kind := Reflect(env, modelClassName);
    if kind.None? {
      return Failure(NoSuchClass(modelClassName));
    }
    match kind.value
    case ModelClass(table) =>
      var r;
      ghost var requests;
      r, requests := SetParamsForModel(cfg, env, modelClassName, table, pName, routeParamName);
      res := Success(r);
    case EnumClass(cases) =>
      var r := SetParamForEnum(cases, pName);
      res := Success(r);
    case OtherClass =>
      res := Failure(UnhandledClassType(modelClassName));
  }

  // ---------------------------------------------------------------------
  // Parameter resolution: the foreach of `handleParams`.

  /** The name a controller parameter is known by on the route: the route's
      declared parameter at the same position when there is one, else the
      controller parameter's own name. */
  function EffectiveName(route: Route, param: Param): (r: string)
    ensures param.position < |route.paramNames| ==> r == route.paramNames[param.position]
    ensures param.position >= |route.paramNames| ==> r == param.name
  {
    if |route.paramNames| > 0 && param.position < |route.paramNames|
    then route.paramNames[param.position]
    else param.name
  }

  /** Reflection over the declared type: None for a builtin or absent type,
      the class kind otherwise, and an error when the class does not exist. */
  function DeclaredKind(env: Env, param: Param): (r: Result<Option<ClassKind>>)
    ensures r.Failure? <==> param.typeName.Some? && param.typeName.value !in env.classes
    ensures r.Failure? ==> r.error == NoSuchClass(param.typeName.value)
    ensures r.Success? && r.value.Some? ==> param.typeName.Some? && r.value.value == env.classes[param.typeName.value]
  {
    match param.typeName
    case None => Success(None)
    case Some(className) =>
      if className in env.classes then Success(Some(env.classes[className])) else Failure(NoSuchClass(className))
  }

  /** The four variables the foreach accumulates. */
  datatype Resolution = Resolution(hasModels: bool, hasNullable: bool, rParams: ParamMap, rParamsNullable: ParamMap)

  /** The entry of the nullable pass for a nullable parameter: `[pName => null]`. */
  function NullEntry(pName: string): ParamMap
  {
    [(pName, Fixed(Plain(Null)))]
  }

  /** A route without a name: `getName()` returns null, written "" here. */
  predicate Unnamed(route: Route)
  {
    route.name == ""
  }

  /** A parameter whose effective name has an entry in the route binder. */
  predicate BinderBound(cfg: Config, route: Route, param: Param)
  {
    HasRouteBinderParam(cfg.binder, route, EffectiveName(route, param))
  }

  /** A parameter whose declared type is an existing model class. */
  predicate ModelTyped(env: Env, param: Param)
  {
    param.typeName.Some? && param.typeName.value in env.classes && env.classes[param.typeName.value].ModelClass?
  }

  /** What one parameter adds to the two maps: for a binder-bound parameter
      the binder's candidates, else for a model-typed parameter the model's
      records, into the nullable map `[pName => null]` instead when the
      parameter allows null; nothing for any other parameter. For an unnamed
      route the debug call in between receives the null name for its
      `string` parameter and raises a type error. */
  function StepEntries(cfg: Config, env: Env, route: Route, param: Param): (r: Result<Option<(ParamMap, ParamMap)>>)
    ensures r.Success? ==> !Unnamed(route)
    ensures r.Success? && r.value.Some? ==> BinderBound(cfg, route, param) || ModelTyped(env, param)
    ensures r.Success? && r.value.None? ==> !BinderBound(cfg, route, param) && !ModelTyped(env, param)
  {
    var kind :- DeclaredKind(env, param);
    var pName := EffectiveName(route, param);
    if Unnamed(route) then Failure(UnnamedRoute(route.uri))
    else if HasRouteBinderParam(cfg.binder, route, pName) then
      var found :- BinderCandidates(cfg, env, route, pName);
      // the source resolves the binder a second time for the nullable map; the same map comes back
      Success(Some((found, if param.allowsNull then NullEntry(pName) else found)))
    else if kind.Some? && kind.value.ModelClass? then
      var found := ModelCandidates(cfg, env, param.typeName.value, kind.value.table, pName, None);
      Success(Some((found, if param.allowsNull then NullEntry(pName) else found)))
    else
      Success(None)
  }

  /** One iteration of the foreach. Both maps grow by PHP union, so a name
      already present keeps its first resolution. */
  function ResolveStep(cfg: Config, env: Env, route: Route, acc: Resolution, param: Param): (r: Result<Resolution>)
    // reflection of the declared type comes first, then the debug call's refusal of an unnamed route
    ensures DeclaredKind(env, param).Failure? ==> r == Failure(DeclaredKind(env, param).error)
    ensures DeclaredKind(env, param).Success? && Unnamed(route) ==> r == Failure(UnnamedRoute(route.uri))
    ensures r.Success? ==> !Unnamed(route) && r.value.hasNullable == (acc.hasNullable || param.allowsNull)
    ensures r.Success? && acc.hasModels ==> r.value.hasModels
    ensures r.Success? && !r.value.hasModels ==> r.value == acc.(hasNullable := r.value.hasNullable)
    // a binder entry takes precedence over the declared type, whatever that is
    ensures DeclaredKind(env, param).Success? && !Unnamed(route) && BinderBound(cfg, route, param) ==>
      var found := BinderCandidates(cfg, env, route, EffectiveName(route, param));
      (found.Failure? ==> r == Failure(found.error)) &&
      (found.Success? ==>
         r.Success? && r.value.hasModels &&
         r.value.rParams == Assoc.Union(acc.rParams, found.value) &&
         r.value.rParamsNullable ==
           Assoc.Union(acc.rParamsNullable, if param.allowsNull then NullEntry(EffectiveName(route, param)) else found.value))
    // without a binder entry, a model-typed parameter contributes the model's records
    ensures !Unnamed(route) && !BinderBound(cfg, route, param) && ModelTyped(env, param) ==>
      var found := ModelCandidates(cfg, env, param.typeName.value, env.classes[param.typeName.value].table,
                                   EffectiveName(route, param), None);
      r.Success? && r.value.hasModels &&
      r.value.rParams == Assoc.Union(acc.rParams, found) &&
      r.value.rParamsNullable ==
        Assoc.Union(acc.rParamsNullable, if param.allowsNull then NullEntry(EffectiveName(route, param)) else found)
    // any other parameter only sets the nullable flag
    ensures DeclaredKind(env, param).Success? && !Unnamed(route) && !BinderBound(cfg, route, param) && !ModelTyped(env, param) ==>
      r == Success(acc.(hasNullable := acc.hasNullable || param.allowsNull))
  {
    var hasNullable := acc.hasNullable || param.allowsNull;
    var entries :- StepEntries(cfg, env, route, param);
    match entries
    case None => Success(acc.(hasNullable := hasNullable))
    case Some((found, forNullable)) =>
      Success(Resolution(true, hasNullable, Assoc.Union(acc.rParams, found), Assoc.Union(acc.rParamsNullable, forNullable)))
  }

  /** The foreach over the filtered parameters, in order; the first error ends it. */
  function ResolveParams(cfg: Config, env: Env, route: Route, params: seq<Param>): (r: Result<Resolution>)
  {
    if params == [] then Success(Resolution(false, false, [], []))
    else
      var acc :- ResolveParams(cfg, env, route, params[..|params| - 1]);
      ResolveStep(cfg, env, route, acc, params[|params| - 1])
  }

  /** An error met in a prefix of the parameters is the error of the whole foreach. */
  lemma {:induction false} ResolveFailureSticks(cfg: Config, env: Env, route: Route, params: seq<Param>, k: nat)
    requires k <= |params| && ResolveParams(cfg, env, route, params[..k]).Failure?
    ensures ResolveParams(cfg, env, route, params) == ResolveParams(cfg, env, route, params[..k])
    decreases |params| - k
  {
    if k == |params| {
      assert params[..k] == params;
    } else {
      var init := params[..|params| - 1];
      assert init[..k] == params[..k];
      ResolveFailureSticks(cfg, env, route, init, k);
    }
  }

  /** What the foreach leaves behind: `hasNullable` says exactly whether some
      parameter allows null, both maps have distinct keys, and without a
      binder-bound or model-typed parameter both maps are empty. */
  lemma {:induction false} ResolveParamsInvariants(cfg: Config, env: Env, route: Route, params: seq<Param>)
    requires ResolveParams(cfg, env, route, params).Success?
    ensures var res := ResolveParams(cfg, env, route, params).value;
      (res.hasNullable <==> exists i :: 0 <= i < |params| && params[i].allowsNull) &&
      Assoc.DistinctKeys(res.rParams) && Assoc.DistinctKeys(res.rParamsNullable) &&
      (!res.hasModels ==> res.rParams == [] && res.rParamsNullable == [])
    ensures ResolveParams(cfg, env, route, params).value.hasModels <==>
      exists i :: 0 <= i < |params| && (BinderBound(cfg, route, params[i]) || ModelTyped(env, params[i]))
  {
    if params != [] {
      var init := params[..|params| - 1];
      var last := params[|params| - 1];
      ResolveParamsInvariants(cfg, env, route, init);
      var acc := ResolveParams(cfg, env, route, init).value;
      var res := ResolveParams(cfg, env, route, params).value;
      assert res == ResolveStep(cfg, env, route, acc, last).value;
      var entries := StepEntries(cfg, env, route, last).value;
      if entries.Some? {
        Assoc.UnionDistinct(acc.rParams, entries.value.0);
        Assoc.UnionDistinct(acc.rParamsNullable, entries.value.1);
      }
      assert forall i :: 0 <= i < |init| ==> init[i] == params[i];
      if last.allowsNull {
        assert params[|params| - 1].allowsNull;
      }
      assert StepEntries(cfg, env, route, last).Success?;
      if BinderBound(cfg, route, last) || ModelTyped(env, last) {
        assert BinderBound(cfg, route, params[|params| - 1]) || ModelTyped(env, params[|params| - 1]);
      }
      if !res.hasModels {
        assert res == acc.(hasNullable := res.hasNullable);
      }
    }
  }

  /** First resolution wins: a name already in either map keeps its entry,
      whatever a later parameter of the same effective name resolves to. */
  lemma FirstResolutionWins(cfg: Config, env: Env, route: Route, acc: Resolution, param: Param, k: string)
    requires ResolveStep(cfg, env, route, acc, param).Success?
    ensures k in Assoc.Keys(acc.rParams) ==>
      Assoc.Lookup(ResolveStep(cfg, env, route, acc, param).value.rParams, k) == Assoc.Lookup(acc.rParams, k)
    ensures k in Assoc.Keys(acc.rParamsNullable) ==>
      Assoc.Lookup(ResolveStep(cfg, env, route, acc, param).value.rParamsNullable, k) == Assoc.Lookup(acc.rParamsNullable, k)
  {
    var entries := StepEntries(cfg, env, route, param).value;
    if entries.Some? {
      Assoc.UnionLookup(acc.rParams, entries.value.0, k);
      Assoc.UnionLookup(acc.rParamsNullable, entries.value.1, k);
    }
  }

  /** In the nullable map, a nullable binder-bound or model-typed parameter
      whose name is new holds the single value null, not a list: in the
      second pass it contributes one choice (see `Expansion.EntryFactor`). */
  lemma NullableParamHoldsNull(cfg: Config, env: Env, route: Route, acc: Resolution, param: Param)
    requires ResolveStep(cfg, env, route, acc, param).Success?
    requires param.allowsNull && EffectiveName(route, param) !in Assoc.Keys(acc.rParamsNullable)
    requires HasRouteBinderParam(cfg.binder, route, EffectiveName(route, param)) ||
             (param.typeName.Some? && param.typeName.value in env.classes && env.classes[param.typeName.value].ModelClass?)
    ensures Assoc.Lookup(ResolveStep(cfg, env, route, acc, param).value.rParamsNullable, EffectiveName(route, param))
         == Some(Fixed(Plain(Null)))
  {
    var pName := EffectiveName(route, param);
    var entries := StepEntries(cfg, env, route, param).value;
    assert entries.Some? && entries.value.1 == NullEntry(pName);
    Assoc.UnionLookup(acc.rParamsNullable, NullEntry(pName), pName);
    assert Assoc.Keys(NullEntry(pName))[0] == pName;
  }

  // ---------------------------------------------------------------------
  // `handleParams` and `handleRoute`.

  /** What `handleParams` appends for the filtered parameters: one rule for
      the route itself when there is no parameter, or none is binder-bound or
      model-typed; otherwise the rules of the expansion, followed, when some
      parameter allows null, by those of the nullable map's expansion. An
      unnamed route reaches the end of the foreach only without parameters;
      building its static rule then fails in `route(null)`, which finds no
      route of that name, before `getRouteFrequency` is called. */
  function ParamsRules(cfg: Config, env: Env, route: Route, params: seq<Param>): (r: Result<seq<Rule>>)
  {
    var res :- ResolveParams(cfg, env, route, params);
    if Unnamed(route) then Failure(UnnamedRoute(route.uri))
    else Success(ResolvedRules(cfg, env, route, |params|, res))
  }

  /** The rules after the foreach, for `count` filtered parameters. */
  function ResolvedRules(cfg: Config, env: Env, route: Route, count: nat, res: Resolution): seq<Rule>
  {
    if count == 0 || !res.hasModels then [RuleFor(cfg, env, route, [])]
    else
      EmitAll(cfg, env, route, Expand(res.rParams)) +
      (if res.hasNullable then EmitAll(cfg, env, route, Expand(res.rParamsNullable)) else [])
  }

  /** The part of `handleParams` after the foreach. */
  method EmitResolved(cfg: Config, env: Env, route: Route, count: nat, res: Resolution, uris: seq<Rule>)
    returns (out: seq<Rule>)
    requires Assoc.DistinctKeys(res.rParams) && Assoc.DistinctKeys(res.rParamsNullable)
    ensures out == uris + ResolvedRules(cfg, env, route, count, res)
  {
    if count == 0 || !res.hasModels {
      return uris + [RuleFor(cfg, env, route, [])];
    }
    out := GenRoute(cfg, env, route, uris, res.rParams);
    ghost var out0 := out;
    ghost var first := EmitAll(cfg, env, route, Expand(res.rParams));
    ghost var second: seq<Rule> := [];
    if res.hasNullable {
      out := GenRoute(cfg, env, route, out, res.rParamsNullable);
      second := EmitAll(cfg, env, route, Expand(res.rParamsNullable));
    }
    Concat3(uris, first, second, out0, out);
  }

  lemma Concat3(uris: seq<Rule>, first: seq<Rule>, second: seq<Rule>, out0: seq<Rule>, out1: seq<Rule>)
    requires out0 == uris + first && out1 == out0 + second
    ensures out1 == uris + (first + second)
  {
  }

  /** The body of `handleParams`' foreach for one parameter. */
  method HandleParam(cfg: Config, env: Env, route: Route, acc: Resolution, param: Param)
    returns (res: Result<Resolution>)
    ensures res == ResolveStep(cfg, env, route, acc, param)
  {
    var hasModels, hasNullable, rParams, rParamsNullable := acc.hasModels, acc.hasNullable, acc.rParams, acc.rParamsNullable;
    hasNullable := hasNullable || param.allowsNull;
    var kind: Option<ClassKind> := None;
    if param.typeName.Some? {
      kind := Reflect(env, param.typeName.value);
      if kind.None? {
        return Failure(NoSuchClass(param.typeName.value));
      }
    }
    var pName := param.name;
    if |route.paramNames| > 0 && param.position < |route.paramNames| {
      pName := route.paramNames[param.position];
    }
    assert pName == EffectiveName(route, param);
    if route.name == "" {
      // debugHandlingParams(string $routeName, ...) refuses the null name
      return Failure(UnnamedRoute(route.uri));
    }
    if HasRouteBinderParam(cfg.binder, route, pName) {
      hasModels := true;
      var found := ProcessWithRouteBinderParam(cfg, env, route, pName);
      if found.Failure? {
        return Failure(found.error);
      }
      rParams := Assoc.Union(rParams, found.value);
      var forNullable := NullEntry(pName);
      if !param.allowsNull {
        var again := ProcessWithRouteBinderParam(cfg, env, route, pName);
        forNullable := again.value;
      }
      rParamsNullable := Assoc.Union(rParamsNullable, forNullable);
    } else if kind.Some? && kind.value.ModelClass? {
      hasModels := true;
      var found;
      ghost var requests;
      found, requests := SetParamsForModel(cfg, env, param.typeName.value, kind.value.table, pName, None);
      rParams := Assoc.Union(rParams, found);
      var forNullable := NullEntry(pName);
      if !param.allowsNull {
        forNullable, requests := SetParamsForModel(cfg, env, param.typeName.value, kind.value.table, pName, None);
      }
      rParamsNullable := Assoc.Union(rParamsNullable, forNullable);
    }
    res := Success(Resolution(hasModels, hasNullable, rParams, rParamsNullable));
  }

  /** `handleParams`: the foreach, then either the single static rule or
      `genRoute` over the resolved map and, when some parameter allows null,
      over the nullable map. On an error nothing is appended. */
  method HandleParams(cfg: Config, env: Env, route: Route, params: seq<Param>, uris: seq<Rule>)
    returns (res: Result<seq<Rule>>)
    ensures ParamsRules(cfg, env, route, params).Success? ==>
      res == Success(uris + ParamsRules(cfg, env, route, params).value)
    ensures ParamsRules(cfg, env, route, params).Failure? ==>
      res == Failure(ParamsRules(cfg, env, route, params).error)
  {
    var acc := Resolution(false, false, [], []);
    for k := 0 to |params|
      invariant ResolveParams(cfg, env, route, params[..k]) == Success(acc)
    {
      assert params[..k + 1][..k] == params[..k];
      var step := HandleParam(cfg, env, route, acc, params[k]);
      if step.Failure? {
        ResolveFailureSticks(cfg, env, route, params, k + 1);
        return Failure(step.error);
      }
      acc := step.value;
    }
    assert params[..|params|] == params;
    if route.name == "" {
      return Failure(UnnamedRoute(route.uri));
    }
    ResolveParamsInvariants(cfg, env, route, params);
    var out := EmitResolved(cfg, env, route, |params|, acc, uris);
    res := Success(out);
  }

  /** A declared class that reflection cannot find. */
  predicate UnknownType(env: Env, p: Param)
  {
    p.typeName.Some? && p.typeName.value !in env.classes
  }

  /** The filter of `handleRoute` keeps a controller parameter whose declared
      class is a model, or whose name is one of the route's parameter names. */
  predicate KeepParam(env: Env, route: Route, p: Param)
  {
    ModelTyped(env, p) || p.name in route.paramNames
  }

  /** The filter of `handleRoute` over the controller signature, in order;
      reflecting a class that does not exist fails. */
  function FilterParams(env: Env, route: Route, sig: seq<Param>): (r: Result<seq<Param>>)
    ensures r.Failure? <==> exists i :: 0 <= i < |sig| && UnknownType(env, sig[i])
    ensures r.Success? ==> |r.value| <= |sig|
    ensures r.Success? ==> forall p :: p in r.value <==> p in sig && KeepParam(env, route, p)
  {
    if sig == [] then Success([])
    else
      var init := sig[..|sig| - 1];
      var last := sig[|sig| - 1];
      assert sig == init + [last];
      var kept :- FilterParams(env, route, init);
      if UnknownType(env, last) then Failure(NoSuchClass(last.typeName.value))
      else Success(kept + (if KeepParam(env, route, last) then [last] else []))
  }

  /** The filter keeps signature order: over a concatenation it is the
      filter of each part in turn, and the first unknown class in signature
      order is the error. */
  lemma {:induction false} FilterParamsAppend(env: Env, route: Route, a: seq<Param>, b: seq<Param>)
    ensures FilterParams(env, route, a).Failure? ==> FilterParams(env, route, a + b) == FilterParams(env, route, a)
    ensures FilterParams(env, route, a).Success? && FilterParams(env, route, b).Failure? ==>
      FilterParams(env, route, a + b) == FilterParams(env, route, b)
    ensures FilterParams(env, route, a).Success? && FilterParams(env, route, b).Success? ==>
      FilterParams(env, route, a + b) == Success(FilterParams(env, route, a).value + FilterParams(env, route, b).value)
    decreases |b|
  {
    if b == [] {
      assert a + b == a;
      if FilterParams(env, route, a).Success? {
        assert FilterParams(env, route, a).value + [] == FilterParams(env, route, a).value;
      }
    } else {
      var init := b[..|b| - 1];
      var last := b[|b| - 1];
      assert (a + b)[..|a + b| - 1] == a + init;
      assert (a + b)[|a + b| - 1] == last;
      FilterParamsAppend(env, route, a, init);
      if FilterParams(env, route, a).Success? && FilterParams(env, route, init).Success? && !UnknownType(env, last) {
        var x, y := FilterParams(env, route, a).value, FilterParams(env, route, init).value;
        var z: seq<Param> := if KeepParam(env, route, last) then [last] else [];
        assert x + y + z == x + (y + z);
      }
    }
  }

  /** What `handleRoute` appends for one route. */
  function RouteRules(cfg: Config, env: Env, route: Route): Result<seq<Rule>>
  {
    var params :- FilterParams(env, route, route.signature);
    ParamsRules(cfg, env, route, params)
  }

  /** `handleRoute`: filter the controller parameters, then `handleParams`. */
  method HandleRoute(cfg: Config, env: Env, route: Route, uris: seq<Rule>) returns (res: Result<seq<Rule>>)
    ensures RouteRules(cfg, env, route).Success? ==> res == Success(uris + RouteRules(cfg, env, route).value)
    ensures RouteRules(cfg, env, route).Failure? ==> res == Failure(RouteRules(cfg, env, route).error)
  {
    var params := FilterParams(env, route, route.signature);
    if params.Failure? {
      return Failure(params.error);
    }
    res := HandleParams(cfg, env, route, params.value, uris);
  }

  // ---------------------------------------------------------------------
  // `generate`.

  /** `generate` handles a route that is not ignored and answers GET. */
  predicate Listed(cfg: Config, route: Route)
  {
    !RouteShouldBeIgnored(cfg.ignoreRoutes, route) && RouteHandlesGetMethod(route)
  }

  /** The rules of the route loop of `generate`, in route order; the first
      error ends the run. */
  function RoutesRules(cfg: Config, env: Env, routes: seq<Route>): Result<seq<Rule>>
  {
    if routes == [] then Success([])
    else
      var before :- RoutesRules(cfg, env, routes[..|routes| - 1]);
      var mine :- Contribution(cfg, env, routes[|routes| - 1]);
      Success(before + mine)
  }

  /** What one route of the loop adds: nothing when it is not listed. */
  function Contribution(cfg: Config, env: Env, route: Route): Result<seq<Rule>>
  {
    if Listed(cfg, route) then RouteRules(cfg, env, route) else Success([])
  }

  lemma RoutesRulesSnoc(cfg: Config, env: Env, routes: seq<Route>, k: nat)
    requires k < |routes|
    ensures RoutesRules(cfg, env, routes[..k + 1]) == Sequence(RoutesRules(cfg, env, routes[..k]), Contribution(cfg, env, routes[k]))
  {
    assert routes[..k + 1][..k] == routes[..k];
  }

  /** An error met in a prefix of the routes is the error of the whole loop. */
  lemma {:induction false} RoutesFailureSticks(cfg: Config, env: Env, routes: seq<Route>, k: nat)
    requires k <= |routes| && RoutesRules(cfg, env, routes[..k]).Failure?
    ensures RoutesRules(cfg, env, routes) == RoutesRules(cfg, env, routes[..k])
    decreases |routes| - k
  {
    if k == |routes| {
      assert routes[..k] == routes;
    } else {
      var init := routes[..|routes| - 1];
      assert init[..k] == routes[..k];
      RoutesFailureSticks(cfg, env, init, k);
    }
  }

  /** A whole run: the binder table is validated before any route is handled. */
  function GenerateRules(cfg: Config, env: Env): Result<seq<Rule>>
  {
    match ValidateBinder(env, cfg.binder)
    case Fail(e) => Failure(e)
    case Pass => RoutesRules(cfg, env, env.routes)
  }

  /** The sitemap entries for the rules, all dated `lastModified`. */
  function Urls(rules: seq<Rule>, lastModified: string): (us: seq<Url>)
    ensures |us| == |rules|
    ensures forall i :: 0 <= i < |rules| ==>
      us[i] == Url(rules[i].loc, lastModified, rules[i].frequency, rules[i].priority)
  {
    seq(|rules|, i requires 0 <= i < |rules| => Url(rules[i].loc, lastModified, rules[i].frequency, rules[i].priority))
  }

  /** The route loop of `generate`: skip ignored and non-GET routes, hand the
      others to `handleRoute`, which appends to the shared list. */
  method CollectRules(cfg: Config, env: Env) returns (res: Result<seq<Rule>>)
    ensures res == RoutesRules(cfg, env, env.routes)
  {
    var generatedUris: seq<Rule> := [];
    for k := 0 to |env.routes|
      invariant RoutesRules(cfg, env, env.routes[..k]) == Success(generatedUris)
    {
      var route := env.routes[k];
      RoutesRulesSnoc(cfg, env, env.routes, k);
      if RouteShouldBeIgnored(cfg.ignoreRoutes, route) {
        assert generatedUris + [] == generatedUris;
        continue;
      }
      if !RouteHandlesGetMethod(route) {
        assert generatedUris + [] == generatedUris;
        continue;
      }
      var r := HandleRoute(cfg, env, route, generatedUris);
      assert Contribution(cfg, env, route) == RouteRules(cfg, env, route);
      if r.Failure? {
        RoutesFailureSticks(cfg, env, env.routes, k + 1);
        return Failure(r.error);
      }
      generatedUris := r.value;
    }
    assert env.routes[..|env.routes|] == env.routes;
    res := Success(generatedUris);
  }

  /** The generator object and the sitemap it fills. */
  class Generator {
    var siteMap: seq<Url>

    constructor()
      ensures siteMap == []
    {
      siteMap := [];
    }

    /** `generate`: validate the binder table, collect the rules of every
        listed route in route order, then add one entry per rule dated
        `yesterday`. When anything throws, the sitemap is left as it was. */
    method Generate(cfg: Config, env: Env, yesterday: string) returns (res: Outcome)
      modifies this
      ensures GenerateRules(cfg, env).Failure? ==>
        res == Fail(GenerateRules(cfg, env).error) && siteMap == old(siteMap)
      ensures GenerateRules(cfg, env).Success? ==>
        res == Pass && siteMap == old(siteMap) + Urls(GenerateRules(cfg, env).value, yesterday)
    {
      var check := AssertRouteBinderIsCorrect(env, cfg.binder);
      if check.Fail? {
        return check;
      }
      var generatedUris := CollectRules(cfg, env);
      if generatedUris.Failure? {
        return Fail(generatedUris.error);
      }
      AddAll(generatedUris.value, yesterday);
      res := Pass;
    }

    /** The final loop of `generate`: one entry per rule, in order. */
    method AddAll(rules: seq<Rule>, yesterday: string)
      modifies this
      ensures siteMap == old(siteMap) + Urls(rules, yesterday)
    {
      for k := 0 to |rules|
        invariant siteMap == old(siteMap) + Urls(rules[..k], yesterday)
      {
        var rule := rules[k];
        assert Urls(rules[..k + 1], yesterday) == Urls(rules[..k], yesterday) + [Url(rule.loc, yesterday, rule.frequency, rule.priority)];
        siteMap := siteMap + [Url(rule.loc, yesterday, rule.frequency, rule.priority)];
      }
      assert rules[..|rules|] == rules;
    }
  }

  // ---------------------------------------------------------------------
  // Properties of a run.

  /** Every emitted rule comes from a non-empty combination the oracle
      accepted, for a named route. */
  lemma {:induction false} EmittedRulesAreResolved(cfg: Config, env: Env, route: Route, cs: seq<ParamMap>)
    ensures forall x :: x in EmitAll(cfg, env, route, cs) ==>
      Truthy(route.name) &&
      exists j :: 0 <= j < |cs| && |cs[j]| > 0 && env.resolves(route.name, cs[j]) && x == RuleFor(cfg, env, route, cs[j])
  {
    if cs != [] {
      var init := cs[..|cs| - 1];
      EmittedRulesAreResolved(cfg, env, route, init);
      assert forall j :: 0 <= j < |init| ==> init[j] == cs[j];
    }
  }

  /** Conversely, every non-empty combination of a named route that the
      oracle accepts yields its rule: with `EmittedRulesAreResolved`, the
      rules are exactly those of the accepted combinations. */
  lemma {:induction false} AcceptedCombinationsEmitted(cfg: Config, env: Env, route: Route, cs: seq<ParamMap>)
    requires Truthy(route.name)
    ensures forall j :: 0 <= j < |cs| && |cs[j]| > 0 && env.resolves(route.name, cs[j]) ==>
      RuleFor(cfg, env, route, cs[j]) in EmitAll(cfg, env, route, cs)
  {
    if cs != [] {
      var init := cs[..|cs| - 1];
      AcceptedCombinationsEmitted(cfg, env, route, init);
      assert forall j :: 0 <= j < |init| ==> init[j] == cs[j];
    }
  }

  /** When the oracle accepts every combination of a named route, each
      combination yields its rule, in order. */
  lemma {:induction false} AllResolvedAllEmitted(cfg: Config, env: Env, route: Route, cs: seq<ParamMap>)
    requires Truthy(route.name)
    requires forall j :: 0 <= j < |cs| ==> |cs[j]| > 0 && env.resolves(route.name, cs[j])
    ensures |EmitAll(cfg, env, route, cs)| == |cs|
    ensures forall j :: 0 <= j < |cs| ==> EmitAll(cfg, env, route, cs)[j] == RuleFor(cfg, env, route, cs[j])
  {
    if cs != [] {
      var init := cs[..|cs| - 1];
      AllResolvedAllEmitted(cfg, env, route, init);
    }
  }

  /** An unnamed route (or one named "0") emits nothing from its combinations. */
  lemma {:induction false} UnnamedRouteEmitsNothing(cfg: Config, env: Env, route: Route, cs: seq<ParamMap>)
    requires !Truthy(route.name)
    ensures EmitAll(cfg, env, route, cs) == []
  {
    if cs != [] {
      UnnamedRouteEmitsNothing(cfg, env, route, cs[..|cs| - 1]);
    }
  }

  /** An empty parameter map emits nothing: its only combination is empty,
      so the loop never marks it as filtered. */
  lemma EmptyMapEmitsNothing(cfg: Config, env: Env, route: Route)
    ensures EmitAll(cfg, env, route, Expand([])) == []
  {
    var empty: ParamMap := [];
    assert Expand(empty) == [empty];
    assert [empty][..0] == [];
  }

  /** With every value resolvable, a named route with a non-empty map gets
      one rule per element of the Cartesian product. */
  lemma ExpansionCount(cfg: Config, env: Env, route: Route, p: ParamMap)
    requires Truthy(route.name) && |p| > 0
    requires forall c :: c in Expand(p) ==> env.resolves(route.name, c)
    ensures |EmitAll(cfg, env, route, Expand(p))| == Size(Lists(p))
  {
    ExpandShape(p);
    ExpandLength(p);
    var cs := Expand(p);
    forall j | 0 <= j < |cs|
      ensures |cs[j]| > 0 && env.resolves(route.name, cs[j])
    {
      assert cs[j] in cs;
      assert IsCombination(p, cs[j]);
    }
    AllResolvedAllEmitted(cfg, env, route, cs);
  }

  /** The configured conditions never depend on the oracle. */
  lemma {:induction false} SelectedConditionsIgnoreOracle(env: Env, f: (string, ParamMap) -> bool,
                                                         table: string, conds: seq<(string, Scalar)>)
    ensures SelectedConditions(env.(resolves := f), table, conds) == SelectedConditions(env, table, conds)
    decreases |conds|
  {
    if conds != [] {
      SelectedConditionsIgnoreOracle(env, f, table, conds[..|conds| - 1]);
    }
  }

  lemma ModelCandidatesIgnoreOracle(cfg: Config, env: Env, f: (string, ParamMap) -> bool,
                                    className: string, table: string, pName: string, field: Option<string>)
    ensures ModelCandidates(cfg, env.(resolves := f), className, table, pName, field)
         == ModelCandidates(cfg, env, className, table, pName, field)
  {
    SelectedConditionsIgnoreOracle(env, f, table, cfg.queryConditions);
  }

  lemma StepEntriesIgnoreOracle(cfg: Config, env: Env, f: (string, ParamMap) -> bool, route: Route, param: Param)
    ensures StepEntries(cfg, env.(resolves := f), route, param) == StepEntries(cfg, env, route, param)
  {
    var pName := EffectiveName(route, param);
    if param.typeName.Some? && param.typeName.value in env.classes && env.classes[param.typeName.value].ModelClass? {
      ModelCandidatesIgnoreOracle(cfg, env, f, param.typeName.value, env.classes[param.typeName.value].table, pName, None);
    }
    if HasRouteBinderParam(cfg.binder, route, pName) {
      var o := GetRouteBinderParam(cfg.binder, route, pName);
      var className := if |o| > 0 then o[0] else "";
      if className in env.classes && env.classes[className].ModelClass? {
        ModelCandidatesIgnoreOracle(cfg, env, f, className, env.classes[className].table, pName,
                                    if |o| > 1 then Some(o[1]) else None);
      }
    }
  }

  /** Parameter resolution never consults the oracle. */
  lemma {:induction false} ResolveParamsIgnoreOracle(cfg: Config, env: Env, f: (string, ParamMap) -> bool,
                                                    route: Route, params: seq<Param>)
    ensures ResolveParams(cfg, env.(resolves := f), route, params) == ResolveParams(cfg, env, route, params)
  {
    if params != [] {
      ResolveParamsIgnoreOracle(cfg, env, f, route, params[..|params| - 1]);
      StepEntriesIgnoreOracle(cfg, env, f, route, params[|params| - 1]);
    }
  }

  /** A named route without filtered parameters, or whose parameters are
      neither binder-bound nor model-typed, gets exactly one rule, its own
      URL; an unnamed one raises. The oracle is not consulted: any other
      oracle gives the same result. */
  lemma StaticRouteSingleRule(cfg: Config, env: Env, f: (string, ParamMap) -> bool, route: Route, params: seq<Param>)
    requires ResolveParams(cfg, env, route, params).Success?
    requires forall i :: 0 <= i < |params| ==> !BinderBound(cfg, route, params[i]) && !ModelTyped(env, params[i])
    ensures !Unnamed(route) ==> ParamsRules(cfg, env, route, params) == Success([RuleFor(cfg, env, route, [])])
    ensures Unnamed(route) ==> ParamsRules(cfg, env, route, params) == Failure(UnnamedRoute(route.uri))
    ensures ParamsRules(cfg, env.(resolves := f), route, params) == ParamsRules(cfg, env, route, params)
  {
    ResolveParamsInvariants(cfg, env, route, params);
    ResolveParamsIgnoreOracle(cfg, env, f, route, params);
  }

  /** One model-typed parameter that the binder does not name, on a named
      route whose combinations all resolve: one rule per selected record, in
      order, each binding the record itself, then one more rule, for
      `[pName => null]`, when the parameter allows null. */
  lemma SingleModelParamRules(cfg: Config, env: Env, route: Route, param: Param)
    requires Truthy(route.name) && ModelTyped(env, param) && !BinderBound(cfg, route, param)
    requires forall c :: env.resolves(route.name, c)
    ensures var rows := ModelRows(cfg, env, param.typeName.value, env.classes[param.typeName.value].table);
      var rules := ParamsRules(cfg, env, route, [param]);
      rules.Success? &&
      |rules.value| == |rows| + (if param.allowsNull then 1 else 0) &&
      (forall j :: 0 <= j < |rows| ==>
         rules.value[j] == RuleFor(cfg, env, route, [(EffectiveName(route, param), Fixed(Instance(rows[j])))])) &&
      (param.allowsNull ==> rules.value[|rows|] == RuleFor(cfg, env, route, NullEntry(EffectiveName(route, param))))
  {
    var rows := ModelRows(cfg, env, param.typeName.value, env.classes[param.typeName.value].table);
    var pName := EffectiveName(route, param);
    var found := Listing(pName, Picks(rows, None));
    var res := SingleModelResolution(cfg, env, route, param);
    RecordRules(cfg, env, route, pName, rows);
    var second := if res.hasNullable then EmitAll(cfg, env, route, Expand(res.rParamsNullable)) else [];
    if param.allowsNull {
      NullEntryRule(cfg, env, route, pName);
    }
    assert ParamsRules(cfg, env, route, [param]) == Success(EmitAll(cfg, env, route, Expand(found)) + second);
  }

  /** The foreach over that one parameter. */
  lemma SingleModelResolution(cfg: Config, env: Env, route: Route, param: Param) returns (res: Resolution)
    requires !Unnamed(route) && ModelTyped(env, param) && !BinderBound(cfg, route, param)
    ensures var found := ModelCandidates(cfg, env, param.typeName.value, env.classes[param.typeName.value].table,
                                         EffectiveName(route, param), None);
      ResolveParams(cfg, env, route, [param]) == Success(res) &&
      res == Resolution(true, param.allowsNull, found, if param.allowsNull then NullEntry(EffectiveName(route, param)) else found)
  {
    var found := ModelCandidates(cfg, env, param.typeName.value, env.classes[param.typeName.value].table,
                                 EffectiveName(route, param), None);
    var empty := Resolution(false, false, [], []);
    assert [param][..0] == [];
    res := ResolveStep(cfg, env, route, empty, param).value;
    assert ResolveParams(cfg, env, route, [param]) == Success(res);
    UnionIntoEmpty(found);
    UnionIntoEmpty(NullEntry(EffectiveName(route, param)));
  }

  /** The records of a model, as themselves, under one name: one rule each, in order. */
  lemma RecordRules(cfg: Config, env: Env, route: Route, pName: string, rows: seq<Record>)
    requires Truthy(route.name) && forall c :: env.resolves(route.name, c)
    ensures var rules := EmitAll(cfg, env, route, Expand(Listing(pName, Picks(rows, None))));
      |rules| == |rows| &&
      forall j :: 0 <= j < |rows| ==> rules[j] == RuleFor(cfg, env, route, [(pName, Fixed(Instance(rows[j])))])
  {
    if rows == [] {
      EmptyMapEmitsNothing(cfg, env, route);
    } else {
      var vs := Picks(rows, None);
      var cs := Expand(Listing(pName, vs));
      OneListOrder(pName, vs, 0);
      forall j | 0 <= j < |cs|
        ensures cs[j] == [(pName, Fixed(Instance(rows[j])))]
      {
        OneListOrder(pName, vs, j);
      }
      AllResolvedAllEmitted(cfg, env, route, cs);
    }
  }

  /** The nullable pass of a single nullable parameter: the one rule for `[pName => null]`. */
  lemma NullEntryRule(cfg: Config, env: Env, route: Route, pName: string)
    requires Truthy(route.name) && env.resolves(route.name, NullEntry(pName))
    ensures EmitAll(cfg, env, route, Expand(NullEntry(pName))) == [RuleFor(cfg, env, route, NullEntry(pName))]
  {
    var c := NullEntry(pName);
    assert Expand(c) == [c];
    assert [c][..0] == [];
  }

  /** A map of at most one entry added to an empty map is itself. */
  lemma UnionIntoEmpty(m: ParamMap)
    requires |m| <= 1
    ensures Assoc.Union([], m) == m
  {
    if m != [] {
      var none: ParamMap := [];
      assert m[1..] == [];
      assert Assoc.Keys(none) == [];
      assert none + [m[0]] == m;
    }
  }

  /** With some binder-bound or model-typed parameter, the nullable pass runs
      exactly when some filtered parameter allows null. */
  lemma NullablePassIff(cfg: Config, env: Env, route: Route, params: seq<Param>)
    requires ResolveParams(cfg, env, route, params).Success?
    requires exists i :: 0 <= i < |params| && (BinderBound(cfg, route, params[i]) || ModelTyped(env, params[i]))
    ensures var res := ResolveParams(cfg, env, route, params).value;
      ParamsRules(cfg, env, route, params) ==
        Success(EmitAll(cfg, env, route, Expand(res.rParams)) +
          (if exists i :: 0 <= i < |params| && params[i].allowsNull
           then EmitAll(cfg, env, route, Expand(res.rParamsNullable)) else []))
  {
    ResolveParamsInvariants(cfg, env, route, params);
  }

  /** Route order: the rules of `a + b` are those of `a` followed by those of
      `b`, and the first error in route order is the one reported. */
  lemma {:induction false} RoutesRulesAppend(cfg: Config, env: Env, a: seq<Route>, b: seq<Route>)
    ensures RoutesRules(cfg, env, a).Failure? ==> RoutesRules(cfg, env, a + b) == RoutesRules(cfg, env, a)
    ensures RoutesRules(cfg, env, a).Success? && RoutesRules(cfg, env, b).Failure? ==>
      RoutesRules(cfg, env, a + b) == Failure(RoutesRules(cfg, env, b).error)
    ensures RoutesRules(cfg, env, a).Success? && RoutesRules(cfg, env, b).Success? ==>
      RoutesRules(cfg, env, a + b) == Success(RoutesRules(cfg, env, a).value + RoutesRules(cfg, env, b).value)
    decreases |b|
  {
    if b == [] {
      assert a + b == a;
      if RoutesRules(cfg, env, a).Success? {
        assert RoutesRules(cfg, env, a).value + [] == RoutesRules(cfg, env, a).value;
      }
    } else {
      var init := b[..|b| - 1];
      var route := b[|b| - 1];
      assert (a + b)[..|a + b| - 1] == a + init;
      assert (a + b)[|a + b| - 1] == route;
      RoutesRulesAppend(cfg, env, a, init);
      var ra, ri, rc := RoutesRules(cfg, env, a), RoutesRules(cfg, env, init), Contribution(cfg, env, route);
      assert RoutesRules(cfg, env, b) == Sequence(ri, rc);
      assert RoutesRules(cfg, env, a + b) == Sequence(RoutesRules(cfg, env, a + init), rc);
      SequenceAssoc(ra, ri, rc);
    }
  }

  /** Two results in a row: the first error, else both rule lists. */
  function Sequence(x: Result<seq<Rule>>, y: Result<seq<Rule>>): Result<seq<Rule>>
  {
    var u :- x;
    var v :- y;
    Success(u + v)
  }

  lemma SequenceAssoc(x: Result<seq<Rule>>, y: Result<seq<Rule>>, z: Result<seq<Rule>>)
    ensures Sequence(Sequence(x, y), z) == Sequence(x, Sequence(y, z))
  {
    if x.Success? && y.Success? && z.Success? {
      assert x.value + y.value + z.value == x.value + (y.value + z.value);
    }
  }

  /** A listed unnamed route raises: with filtered parameters the first pass
      of the foreach reaches the debug call, without them the static rule;
      only a reflection error of the filter comes first. */
  lemma UnnamedRouteFails(cfg: Config, env: Env, route: Route)
    requires Unnamed(route)
    ensures RouteRules(cfg, env, route).Failure?
    ensures FilterParams(env, route, route.signature).Success? ==>
      RouteRules(cfg, env, route) == Failure(UnnamedRoute(route.uri))
  {
    var fp := FilterParams(env, route, route.signature);
    if fp.Success? && fp.value != [] {
      var params := fp.value;
      assert params[0] in params && !UnknownType(env, params[0]);
      var empty: seq<Param> := [];
      assert params[..1][..0] == empty;
      assert ResolveParams(cfg, env, route, params[..1])
          == ResolveStep(cfg, env, route, Resolution(false, false, [], []), params[0]);
      assert StepEntries(cfg, env, route, params[0]) == Failure(UnnamedRoute(route.uri));
      ResolveFailureSticks(cfg, env, route, params, 1);
    }
  }

  /** One listed unnamed route anywhere in the registry makes the whole
      route loop, and so `generate`, fail. */
  lemma UnnamedListedRouteFailsRun(cfg: Config, env: Env, routes: seq<Route>, k: nat)
    requires k < |routes| && Listed(cfg, routes[k]) && Unnamed(routes[k])
    ensures RoutesRules(cfg, env, routes).Failure?
  {
    UnnamedRouteFails(cfg, env, routes[k]);
    RoutesRulesSnoc(cfg, env, routes, k);
    RoutesFailureSticks(cfg, env, routes, k + 1);
  }

  /** An ignored or non-GET route contributes nothing, wherever it stands. */
  lemma UnlistedRouteAddsNothing(cfg: Config, env: Env, a: seq<Route>, route: Route, b: seq<Route>)
    requires !Listed(cfg, route)
    ensures RoutesRules(cfg, env, a + [route] + b) == RoutesRules(cfg, env, a + b)
  {
    var empty: seq<Route> := [];
    assert [route][..0] == empty && [route][..1] == [route];
    RoutesRulesSnoc(cfg, env, [route], 0);
    assert Contribution(cfg, env, route) == Success([]);
    assert RoutesRules(cfg, env, empty) == Success([]);
    var none: seq<Rule> := [];
    assert Sequence(Success(none), Success(none)) == Success(none + none);
    assert none + none == none;
    assert RoutesRules(cfg, env, [route]) == Success([]);
    RoutesRulesAppend(cfg, env, a, [route]);
    assert RoutesRules(cfg, env, a + [route]) == RoutesRules(cfg, env, a) by {
      if RoutesRules(cfg, env, a).Success? {
        assert RoutesRules(cfg, env, a).value + [] == RoutesRules(cfg, env, a).value;
      }
    }
    RoutesRulesAppend(cfg, env, a + [route], b);
    RoutesRulesAppend(cfg, env, a, b);
  }

  /** A binder target `[className, column]` yields the model's records as
      that column, or the enum's values in order; another class raises
      "Unhandled class type", a missing class the reflection error. */
  lemma BinderTargetKinds(cfg: Config, env: Env, route: Route, pName: string, i: nat, j: nat,
                          className: string, column: string)
    requires Assoc.DistinctKeys(cfg.binder) && i < |cfg.binder| && cfg.binder[i].0 == route.name
    requires Assoc.DistinctKeys(cfg.binder[i].1) && j < |cfg.binder[i].1|
    requires cfg.binder[i].1[j] == (pName, [className, column])
    ensures HasRouteBinderParam(cfg.binder, route, pName)
    ensures HasRouteBinderParam(cfg.binder, route, pName) && className !in env.classes ==>
      BinderCandidates(cfg, env, route, pName) == Failure(NoSuchClass(className))
    ensures HasRouteBinderParam(cfg.binder, route, pName) && className in env.classes &&
            env.classes[className].ModelClass? ==>
      BinderCandidates(cfg, env, route, pName)
        == Success(ModelCandidates(cfg, env, className, env.classes[className].table, pName, Some(column)))
    ensures HasRouteBinderParam(cfg.binder, route, pName) && className in env.classes &&
            env.classes[className].EnumClass? ==>
      BinderCandidates(cfg, env, route, pName) == Success(Listing(pName, Plains(env.classes[className].cases)))
    ensures HasRouteBinderParam(cfg.binder, route, pName) && className in env.classes &&
            env.classes[className].OtherClass? ==>
      BinderCandidates(cfg, env, route, pName) == Failure(UnhandledClassType(className))
  {
    HasRouteBinderParamIff(cfg.binder, route, pName);
    assert GetRouteBinder(cfg.binder, route) == cfg.binder[i].1;
    Assoc.LookupDistinct(cfg.binder[i].1, j);
    assert GetRouteBinderParam(cfg.binder, route, pName) == [className, column];
  }
}
