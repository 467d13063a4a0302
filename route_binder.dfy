/** The explicit binder table: per route name, per parameter name, the
    configured target `[className, column]`. Lookups, and the pre-flight
    validation run before any route is handled. */
module RouteBinder {
  import opened Framework
  import Assoc

  /** The configured array of one binder entry, in its own order (normally
      `[className, column]`). */
  type BinderTarget = seq<string>

  /** Parameter name to target, for one route. */
  type RouteBinders = seq<(string, BinderTarget)>

  /** Route name to its parameter binders, in configuration order. */
  type BinderTable = seq<(string, RouteBinders)>

  /** `hasRouteBinder`: the route's name is a key of the table. */
  function HasRouteBinder(table: BinderTable, route: Route): (r: bool)
    ensures r <==> exists i :: 0 <= i < |table| && table[i].0 == route.name
  {
    route.name in Assoc.Keys(table)
  }

  /** `getRouteBinder`: the binders under the route's name, or none. */
  function GetRouteBinder(table: BinderTable, route: Route): (r: RouteBinders)
    ensures !HasRouteBinder(table, route) ==> r == []
    ensures Assoc.DistinctKeys(table) ==> forall i :: 0 <= i < |table| && table[i].0 == route.name ==> r == table[i].1
  {
    match Assoc.Lookup(table, route.name)
    case None => []
    case Some(binders) =>
      assert Assoc.DistinctKeys(table) ==> forall i :: 0 <= i < |table| && table[i].0 == route.name ==> binders == table[i].1;
      binders
  }

  /** `hasRouteBinderParam`. */
  function HasRouteBinderParam(table: BinderTable, route: Route, param: string): (r: bool)
    ensures r ==> HasRouteBinder(table, route)
  {
    if HasRouteBinder(table, route) then param in Assoc.Keys(GetRouteBinder(table, route)) else false
  }

  /** In a table with distinct keys (as every PHP array has), a parameter has
      a binder exactly when the route's name is a key and the parameter is a
      key under it. */
  lemma HasRouteBinderParamIff(table: BinderTable, route: Route, param: string)
    requires Assoc.DistinctKeys(table)
    ensures HasRouteBinderParam(table, route, param) <==>
      exists i, j :: 0 <= i < |table| && 0 <= j < |table[i].1| && table[i].0 == route.name && table[i].1[j].0 == param
  {
    if HasRouteBinderParam(table, route, param) {
      var i :| 0 <= i < |table| && table[i].0 == route.name;
      var bs := table[i].1;
      assert param in Assoc.Keys(bs);
      var j :| 0 <= j < |bs| && Assoc.Keys(bs)[j] == param;
      assert table[i].1[j].0 == param;
    }
    if exists i, j :: 0 <= i < |table| && 0 <= j < |table[i].1| && table[i].0 == route.name && table[i].1[j].0 == param {
      var i, j :| 0 <= i < |table| && 0 <= j < |table[i].1| && table[i].0 == route.name && table[i].1[j].0 == param;
      assert Assoc.Keys(table[i].1)[j] == param;
    }
  }

  /** `getRouteBinderParam`; called only after `hasRouteBinderParam`. */
  function GetRouteBinderParam(table: BinderTable, route: Route, param: string): (r: BinderTarget)
    requires HasRouteBinderParam(table, route, param)
    ensures exists j :: 0 <= j < |GetRouteBinder(table, route)| && GetRouteBinder(table, route)[j] == (param, r)
  {
    var found := Assoc.Lookup(GetRouteBinder(table, route), param);
    found.value
  }

  /** How checking a binder entry, a route's entries or the table ends:
      everything checked, stopped early at an enum target, or thrown. */
  datatype Verdict = Checked | Stopped | Thrown(error: Error)

  /** One entry of `assertRouteBinderIsCorrect`: arity first, then the
      target's kind (an enum stops the whole validation), then the column. */
  function CheckEntry(env: Env, routeName: string, paramName: string, target: BinderTarget): (r: Verdict)
    ensures r == Checked <==> |target| == 2 && target[0] in env.classes && env.classes[target[0]].ModelClass?
                              && HasColumn(env, env.classes[target[0]].table, target[1])
    ensures r == Stopped <==> |target| == 2 && target[0] in env.classes && env.classes[target[0]].EnumClass?
  {
    if |target| != 2 then Thrown(BinderArity(routeName, paramName))
    else match Reflect(env, target[0])
      case None => Thrown(NoSuchClass(target[0]))
      case Some(EnumClass(_)) => Stopped
      case Some(OtherClass) => Thrown(NotAModelClass(routeName, paramName))
      case Some(ModelClass(table)) =>
        if HasColumn(env, table, target[1]) then Checked
        else Thrown(NoSuchColumn(routeName, paramName, target[1], target[0]))
  }

  /** The inner loop: the first entry that does not pass decides. */
  function CheckEntries(env: Env, routeName: string, binders: RouteBinders): (r: Verdict)
    ensures r == Checked <==> forall j :: 0 <= j < |binders| ==> CheckEntry(env, routeName, binders[j].0, binders[j].1) == Checked
    ensures r != Checked ==> exists j :: 0 <= j < |binders| && CheckEntry(env, routeName, binders[j].0, binders[j].1) == r
  {
    if binders == [] then Checked
    else
      var v := CheckEntry(env, routeName, binders[0].0, binders[0].1);
      if v != Checked then v else CheckEntries(env, routeName, binders[1..])
  }

  /** The outer loop: a route name must be a named route before any of its entries is looked at. */
  function CheckRoutes(env: Env, table: BinderTable): (r: Verdict)
    ensures r == Checked <==> forall i :: 0 <= i < |table| ==>
      HasNamedRoute(env, table[i].0) && CheckEntries(env, table[i].0, table[i].1) == Checked
    ensures r != Checked ==>
      exists i :: 0 <= i < |table| &&
        (r == Thrown(RouteDoesNotExist(table[i].0)) || CheckEntries(env, table[i].0, table[i].1) == r)
  {
    if table == [] then Checked
    else if !HasNamedRoute(env, table[0].0) then Thrown(RouteDoesNotExist(table[0].0))
    else
      var v := CheckEntries(env, table[0].0, table[0].1);
      if v != Checked then v else CheckRoutes(env, table[1..])
  }

  /** Every binder key is a named route and every entry names a model and one of its columns. */
  predicate AllEntriesPass(env: Env, table: BinderTable)
  {
    (forall i :: 0 <= i < |table| ==> HasNamedRoute(env, table[i].0)) &&
    forall i, j :: 0 <= i < |table| && 0 <= j < |table[i].1| ==>
      CheckEntry(env, table[i].0, table[i].1[j].0, table[i].1[j].1) == Checked
  }

  /** What `assertRouteBinderIsCorrect` does: throw the first error, else return. */
  function ValidateBinder(env: Env, table: BinderTable): (r: Outcome)
    ensures AllEntriesPass(env, table) ==> r == Pass
    ensures r.Fail? ==>
      exists i :: 0 <= i < |table| &&
        (r.error == RouteDoesNotExist(table[i].0) ||
         exists j :: 0 <= j < |table[i].1| && CheckEntry(env, table[i].0, table[i].1[j].0, table[i].1[j].1) == Thrown(r.error))
  {
    match CheckRoutes(env, table)
    case Thrown(e) => Fail(e)
    case _ => Pass
  }

  /** `assertRouteBinderIsCorrect`: the nested loop with its early return. */
  method AssertRouteBinderIsCorrect(env: Env, table: BinderTable) returns (res: Outcome)
    ensures res == ValidateBinder(env, table)
  {
    var i := 0;
    while i < |table|
      invariant 0 <= i <= |table|
      invariant CheckRoutes(env, table) == CheckRoutes(env, table[i..])
    {
      var (routeName, binders) := table[i];
      assert table[i..][0] == table[i];
      if !HasNamedRoute(env, routeName) {
        return Fail(RouteDoesNotExist(routeName));
      }
      var j := 0;
      while j < |binders|
        invariant 0 <= j <= |binders|
        invariant CheckEntries(env, routeName, binders) == CheckEntries(env, routeName, binders[j..])
      {
        var (paramName, target) := binders[j];
        assert binders[j..][1..] == binders[j + 1..];
        if |target| != 2 {
          return Fail(BinderArity(routeName, paramName));
        }
        var kind := Reflect(env, target[0]);
        if kind.None? {
          return Fail(NoSuchClass(target[0]));
        }
        if kind.value.EnumClass? {
          return Pass;
        }
        if !kind.value.ModelClass? {
          return Fail(NotAModelClass(routeName, paramName));
        }
        if !HasColumn(env, kind.value.table, target[1]) {
          return Fail(NoSuchColumn(routeName, paramName, target[1], target[0]));
        }
        j := j + 1;
      }
      assert binders[j..] == [];
      assert table[i..][1..] == table[i + 1..];
      i := i + 1;
    }
    assert table[i..] == [];
    res := Pass;
  }

  /** The inner loop over a concatenation: the second part runs only when
      every entry of the first part passed. */
  lemma {:induction false} CheckEntriesAppend(env: Env, routeName: string, a: RouteBinders, b: RouteBinders)
    ensures CheckEntries(env, routeName, a + b) ==
      if CheckEntries(env, routeName, a) == Checked then CheckEntries(env, routeName, b) else CheckEntries(env, routeName, a)
  {
    if a != [] {
      assert (a + b)[1..] == a[1..] + b;
      CheckEntriesAppend(env, routeName, a[1..], b);
    } else {
      assert a + b == b;
    }
  }

  /** The outer loop over a concatenation of tables. */
  lemma {:induction false} CheckRoutesAppend(env: Env, a: BinderTable, b: BinderTable)
    ensures CheckRoutes(env, a + b) ==
      if CheckRoutes(env, a) == Checked then CheckRoutes(env, b) else CheckRoutes(env, a)
  {
    if a != [] {
      assert (a + b)[0] == a[0];
      assert (a + b)[1..] == a[1..] + b;
      CheckRoutesAppend(env, a[1..], b);
    } else {
      assert a + b == b;
    }
  }

  /** The early exit: once every entry before it passed, the first enum
      target ends validation successfully, whatever the remaining entries of
      that route and all later routes hold. */
  lemma EarlyExitAtFirstEnum(env: Env, before: BinderTable, routeName: string,
                             checked: RouteBinders, paramName: string, target: BinderTarget,
                             rest: RouteBinders, after: BinderTable)
    requires CheckRoutes(env, before) == Checked
    requires HasNamedRoute(env, routeName)
    requires CheckEntries(env, routeName, checked) == Checked
    requires |target| == 2 && target[0] in env.classes && env.classes[target[0]].EnumClass?
    ensures ValidateBinder(env, before + [(routeName, checked + [(paramName, target)] + rest)] + after) == Pass
  {
    var binders := checked + [(paramName, target)] + rest;
    EntriesStopAtEnum(env, routeName, checked, paramName, target, rest);
    RoutesAfterStop(env, before, routeName, binders, after);
  }

  lemma EntriesStopAtEnum(env: Env, routeName: string, checked: RouteBinders, paramName: string,
                          target: BinderTarget, rest: RouteBinders)
    requires CheckEntries(env, routeName, checked) == Checked
    requires |target| == 2 && target[0] in env.classes && env.classes[target[0]].EnumClass?
    ensures CheckEntries(env, routeName, checked + [(paramName, target)] + rest) == Stopped
  {
    CheckEntriesAppend(env, routeName, checked, [(paramName, target)] + rest);
    assert checked + [(paramName, target)] + rest == checked + ([(paramName, target)] + rest);
    assert CheckEntry(env, routeName, paramName, target) == Stopped;
    assert ([(paramName, target)] + rest)[0] == (paramName, target);
  }

  lemma RoutesAfterStop(env: Env, before: BinderTable, routeName: string, binders: RouteBinders, after: BinderTable)
    requires CheckRoutes(env, before) == Checked
    requires HasNamedRoute(env, routeName)
    requires CheckEntries(env, routeName, binders) == Stopped
    ensures CheckRoutes(env, before + [(routeName, binders)] + after) == Stopped
  {
    var t := [(routeName, binders)] + after;
    HeadStops(env, t);
    CheckRoutesAppend(env, before, t);
    assert before + [(routeName, binders)] + after == before + t;
  }

  lemma HeadStops(env: Env, t: BinderTable)
    requires t != [] && HasNamedRoute(env, t[0].0) && CheckEntries(env, t[0].0, t[0].1) == Stopped
    ensures CheckRoutes(env, t) == Stopped
  {
  }

  /** Any failing entry that is reached decides the error thrown: a route
      name unknown to the registry is reported before its entries, whatever
      they hold. */
  lemma UnknownRouteFailsFirst(env: Env, before: BinderTable, routeName: string,
                               binders: RouteBinders, after: BinderTable)
    requires CheckRoutes(env, before) == Checked
    requires !HasNamedRoute(env, routeName)
    ensures ValidateBinder(env, before + [(routeName, binders)] + after) == Fail(RouteDoesNotExist(routeName))
  {
    CheckRoutesAppend(env, before, [(routeName, binders)] + after);
    assert before + [(routeName, binders)] + after == before + ([(routeName, binders)] + after);
  }

  /** The first entry that does not pass, once reached, decides: an entry of
      the wrong arity fails as such even when its first element names an
      enum, a class that does not exist fails reflection, a non-model target
      fails, and a model target needs the column. */
  lemma FirstFailingEntryDecides(env: Env, before: BinderTable, routeName: string,
                                 checked: RouteBinders, paramName: string, target: BinderTarget,
                                 rest: RouteBinders, after: BinderTable)
    requires CheckRoutes(env, before) == Checked
    requires HasNamedRoute(env, routeName)
    requires CheckEntries(env, routeName, checked) == Checked
    ensures |target| != 2 ==>
      ValidateBinder(env, before + [(routeName, checked + [(paramName, target)] + rest)] + after)
        == Fail(BinderArity(routeName, paramName))
    ensures |target| == 2 && target[0] !in env.classes ==>
      ValidateBinder(env, before + [(routeName, checked + [(paramName, target)] + rest)] + after)
        == Fail(NoSuchClass(target[0]))
    ensures |target| == 2 && target[0] in env.classes && env.classes[target[0]].OtherClass? ==>
      ValidateBinder(env, before + [(routeName, checked + [(paramName, target)] + rest)] + after)
        == Fail(NotAModelClass(routeName, paramName))
    ensures |target| == 2 && target[0] in env.classes && env.classes[target[0]].ModelClass?
            && !HasColumn(env, env.classes[target[0]].table, target[1]) ==>
      ValidateBinder(env, before + [(routeName, checked + [(paramName, target)] + rest)] + after)
        == Fail(NoSuchColumn(routeName, paramName, target[1], target[0]))
  {
    var binders := checked + [(paramName, target)] + rest;
    CheckEntriesAppend(env, routeName, checked, [(paramName, target)] + rest);
    assert binders == checked + ([(paramName, target)] + rest);
    CheckRoutesAppend(env, before, [(routeName, binders)] + after);
    assert before + [(routeName, binders)] + after == before + ([(routeName, binders)] + after);
  }
}
