# Sitemap route expansion, modelled in Dafny

This project models the core of the Laravel package Kwaadpepper/refresh-sitemap:
the engine that turns the application's route table into sitemap entries.
For every registered route that answers GET and is neither under an ignored URI prefix
nor behind an `auth*` middleware, the generator does four things.
It classifies the controller's parameters: explicit binder, model-typed, or contributing nothing.
It resolves candidate values: every record of a model, paged 10 at a time under the configured column filters, or every case of an enum.
It expands the resulting ordered parameter map into every combination, recursing on the first list-valued key.
It emits one entry for each combination the framework can bind, with a change frequency and a priority taken from the first configured route-name prefix that matches.
A pre-flight check validates the binder table before any route is handled.

Layout, one module per source unit:

- `framework.dfy` (`Framework`): routes, controller parameters, values, errors, and the framework as a value `Env`. `Env` holds reflection over class names, the schema's columns, the record store, the `route()` URL builder, and the binding oracle.
- `assoc.dfy` (`Assoc`): PHP arrays with string keys as ordered association lists. It defines lookup, `+=` union (first key wins) and `array_merge` of one pair.
- `route_infos.dfy` (`RouteInfos`): `SitemapRouteInfos`, the frequency and priority lookups.
- `route_conditions.dfy` (`RouteConditions`): `SitemapRouteConditions`, the route filter and the query conditions.
- `route_binder.dfy` (`RouteBinder`): `SitemapRouteBinder`, the binder lookups and the validation loop.
- `expansion.dfy` (`Expansion`): the combinations `genRoute` visits. It also gives an independent Cartesian product and proves the two agree.
- `sitemap_generator.dfy` (`SitemapGenerator`): `SitemapGenerator`. Each method is proved against a specification function, and the lemmas relate those functions.

The framework is abstract.
A route's name is `""` when it has none; PHP truthiness of a name means neither `""` nor `"0"`.
`strpos($h, $n) === 0` is the prefix test `n <= h`, which matches an empty needle, as PHP 8 does.
A configured priority arrives already classified as `Numeric(r)` or `NonNumeric`.
The date of `Carbon::yesterday()` is a parameter of `Generate`.

## Model

| member | source | states |
|---|---|---|
| Assoc.Lookup | src/Traits/SitemapRouteBinder.php:64 | the value under a key when the key is present, and absence exactly when it is not |
| Assoc.Union | src/Lib/SitemapGenerator.php:199-201 | `$a += $b` is no longer than both together, and every entry of the result comes from `a` or from `b` |
| Assoc.UnionLookup | src/Lib/SitemapGenerator.php:199-201 | under `$a += $b` a key of `a` keeps its value from `a`, and any other key takes its value from `b` |
| Assoc.UnionKeys | src/Lib/SitemapGenerator.php:199-201 | `a` stays a prefix of `a += b`, and the key set is the union of both key sets |
| Assoc.UnionDistinct | src/Lib/SitemapGenerator.php:199-201 | union keeps the keys of an array distinct |
| Assoc.PutAt | src/Lib/SitemapGenerator.php:374 | `array_merge` over an existing key replaces exactly that entry; positions and other entries stay unchanged |
| Assoc.Put | src/Lib/SitemapGenerator.php:374 | `array_merge($a, [$k => $v])` appends a new key at the end, and over an existing key keeps the length and the key order |
| Assoc.LookupDistinct | src/Traits/SitemapRouteBinder.php:76 | with distinct keys, looking up an entry's key finds that entry |
| RouteInfos.DefaultInfoConfig | src/Traits/SitemapRouteInfos.php:10-16 | the default frequency is one of the seven tokens, the default priority is strictly between 0 and 1, and both tables start empty |
| RouteInfos.FrequencyIn | src/Traits/SitemapRouteInfos.php:47-53 | the first prefix match decides: its value if it is a valid token, otherwise the default; with no match, the default; so always a valid token or the default |
| RouteInfos.PriorityIn | src/Traits/SitemapRouteInfos.php:64-71 | the first prefix match decides: its value if numeric and strictly between 0 and 1, otherwise the default; with no match, the default |
| RouteInfos.RouteFrequency | src/Traits/SitemapRouteInfos.php:18-54 | `getRouteFrequency` over the configured table: first match, validation against the seven tokens, fallback |
| RouteInfos.RoutePriority | src/Traits/SitemapRouteInfos.php:62-72 | `getRoutePriority` over the configured table: first match, range check, fallback |
| RouteInfos.LaterFrequenciesIgnored | src/Traits/SitemapRouteInfos.php:47-51 | replacing every frequency entry after the first match does not change the frequency |
| RouteInfos.LaterPrioritiesIgnored | src/Traits/SitemapRouteInfos.php:64-69 | replacing every priority entry after the first match does not change the priority |
| RouteInfos.FirstMatchNotMostSpecific | src/Traits/SitemapRouteInfos.php:47-48 | with "blog." listed before "blog.show", the route "blog.show" gets the frequency of "blog." |
| RouteInfos.OutOfRangePriorityFallsBack | src/Traits/SitemapRouteInfos.php:68 | a matched priority of 2.0 yields the default 0.5 |
| RouteInfos.PriorityBoundsExcluded | src/Traits/SitemapRouteInfos.php:64-71 | a first match, at any position, whose priority is exactly 0 or exactly 1 yields the default |
| RouteConditions.LTrimSlashes | src/Traits/SitemapRouteConditions.php:74 | the result is a suffix of the input, only `/` characters were removed, and it does not start with `/` |
| RouteConditions.RouteHandlesGetMethod | src/Traits/SitemapRouteConditions.php:58-61 | true exactly when "GET" is one of the route's methods |
| RouteConditions.UriIsIgnored | src/Traits/SitemapRouteConditions.php:73-77 | true exactly when some ignore entry, with its leading slashes stripped, is a prefix of the URI |
| RouteConditions.HasAuthMiddleware | src/Traits/SitemapRouteConditions.php:78-82 | true exactly when some middleware name starts with "auth" |
| RouteConditions.RouteShouldBeIgnored | src/Traits/SitemapRouteConditions.php:71-84 | the disjunction of the URI-prefix test and the middleware test, and false otherwise |
| RouteConditions.IgnoreIsOrderIndependent | src/Traits/SitemapRouteConditions.php:73-83 | the decision depends only on the set of ignore entries, and never on the route's name |
| RouteConditions.LeadingSlashStripped | src/Traits/SitemapRouteConditions.php:74 | the entry "/admin" excludes the URI "admin/users" |
| RouteConditions.SelectedConditions | src/Traits/SitemapRouteConditions.php:46-49 | a configured condition is selected exactly when its column exists on the table |
| RouteConditions.SelectedConditionsAppend | src/Traits/SitemapRouteConditions.php:46-49 | selection keeps configuration order, because it distributes over concatenation |
| RouteConditions.QueryConditions | src/Traits/SitemapRouteConditions.php:44-50 | the query gains exactly the selected filters, appended in configuration order |
| RouteConditions.Rows | src/Lib/SitemapGenerator.php:344-347 | a record is selected exactly when it is in the model's store and matches every filter |
| RouteConditions.FilterRecords | src/Lib/SitemapGenerator.php:344-347 | keeps exactly the records that match every filter |
| RouteConditions.FilterRecordsAppend | src/Lib/SitemapGenerator.php:344-347 | filtering distributes over concatenation, so the kept records keep their store order and multiplicity |
| RouteBinder.HasRouteBinder | src/Traits/SitemapRouteBinder.php:36-39 | true exactly when the route's name is a key of the table |
| Framework.HasNamedRoute | src/Traits/SitemapRouteBinder.php:89-94 | a name that is empty or "0" is never a named route; any other name is one exactly when some registered route carries it |
| RouteBinder.GetRouteBinder | src/Traits/SitemapRouteBinder.php:62-65 | the empty map for a route name absent from the table, and that name's entry otherwise |
| RouteBinder.HasRouteBinderParam | src/Traits/SitemapRouteBinder.php:48-54 | true only for a route that has a binder |
| RouteBinder.HasRouteBinderParamIff | src/Traits/SitemapRouteBinder.php:36-54 | true exactly when the route name is a key of the table and the parameter is a key under it |
| RouteBinder.GetRouteBinderParam | src/Traits/SitemapRouteBinder.php:74-77 | the target stored under the parameter in the route's binders |
| RouteBinder.CheckEntry | src/Traits/SitemapRouteBinder.php:96-130 | one entry passes exactly when it has two elements naming a model class and one of its table's columns, and stops validation exactly when it has two elements naming an enum class |
| RouteBinder.CheckEntries | src/Traits/SitemapRouteBinder.php:95-131 | a route's entries pass exactly when each of them passes; otherwise the verdict is that of one of its entries |
| RouteBinder.CheckRoutes | src/Traits/SitemapRouteBinder.php:87-133 | the table passes exactly when every key is a named route whose entries all pass; otherwise the verdict is an unknown route name or that of one route's entries |
| RouteBinder.ValidateBinder | src/Traits/SitemapRouteBinder.php:85-134 | a table of named routes whose entries all pass validates; any error raised is the unknown-route error of a key or the error of one entry |
| RouteBinder.AssertRouteBinderIsCorrect | src/Traits/SitemapRouteBinder.php:85-134 | the nested loop, with its throws and its early return, computes the validation verdict |
| RouteBinder.CheckEntriesAppend | src/Traits/SitemapRouteBinder.php:95-132 | later entries of a route are checked only when every earlier entry passed |
| RouteBinder.CheckRoutesAppend | src/Traits/SitemapRouteBinder.php:89-133 | later routes are checked only when every earlier route passed |
| RouteBinder.EarlyExitAtFirstEnum | src/Traits/SitemapRouteBinder.php:106-109 | once everything before it passed, the first enum target ends validation successfully, whatever follows |
| RouteBinder.UnknownRouteFailsFirst | src/Traits/SitemapRouteBinder.php:89-94 | a binder key that is not a named route fails before any of its entries is looked at |
| RouteBinder.FirstFailingEntryDecides | src/Traits/SitemapRouteBinder.php:95-131 | the first failing entry decides the error: wrong arity is checked first, then a class that reflection cannot find, then a non-model target, then a missing column |
| Expansion.CandidateCount | src/Lib/SitemapGenerator.php:371-372 | the number of list-valued entries, at most the map's length, and zero exactly when the map holds no list |
| Expansion.FirstCandidates | src/Lib/SitemapGenerator.php:371-379 | the position where `genRoute`'s foreach stops, with every earlier entry concrete; none exactly when the map is complete |
| Expansion.FirstCandidatesAt | src/Lib/SitemapGenerator.php:371-372 | the foreach stops at the first list-valued entry |
| Expansion.ChooseCount | src/Lib/SitemapGenerator.php:374 | fixing a list-valued entry leaves one list fewer, so the recursion terminates |
| Expansion.Expand | src/Lib/SitemapGenerator.php:370-379 | a map without lists is its own single combination (the leaf of `genRoute`) |
| Expansion.ExpandEachShape | src/Lib/SitemapGenerator.php:372-376 | every map visited while one list is expanded over candidates drawn from it is a complete combination of the input: same keys in the same order, concrete entries carried over, each list replaced by one of its candidates |
| Expansion.ExpandEachIsProduct | src/Lib/SitemapGenerator.php:372-376 | expanding the first list over candidates `vs` visits, in the order of `vs`, each candidate followed by every element of the product of the remaining lists |
| Expansion.ExpandShape | src/Lib/SitemapGenerator.php:371-377 | every visited map has the input's keys in the input's order and no list left; concrete entries are carried over, and each list is replaced by one of its own candidates |
| Expansion.ExpandIsProduct | src/Lib/SitemapGenerator.php:368-389 | the recursion visits exactly the Cartesian product of the candidate lists: the first list varies slowest, and each list keeps its order |
| Expansion.ExpandLength | src/Lib/SitemapGenerator.php:371-377 | the number of combinations is the product of the list lengths |
| Expansion.EntryFactor | src/Lib/SitemapGenerator.php:371-377 | a list multiplies the number of combinations by its length; a concrete entry, such as the null of the nullable pass, multiplies it by one |
| Expansion.EmptyListNoCombination | src/Lib/SitemapGenerator.php:371-377 | an empty candidate list anywhere yields no combination |
| Expansion.OneListOrder | src/Lib/SitemapGenerator.php:368-377 | a single list expands to one combination per candidate, in the list's order |
| Expansion.TwoListsOrder | src/Lib/SitemapGenerator.php:371-377 | with two lists, the combination at position a*\|ys\|+b pairs the a-th candidate of the first key with the b-th candidate of the second |
| SitemapGenerator.RouteBindingsCanBeResolved | src/Lib/SitemapGenerator.php:398-417 | false for an unnamed route; otherwise the verdict of the binding oracle |
| SitemapGenerator.Emit | src/Lib/SitemapGenerator.php:378-388 | a complete combination yields at most one rule, it yields one exactly when the map is non-empty, the route's name is truthy and the oracle accepts the combination, and that rule's URL is built from the combination |
| SitemapGenerator.EmitAll | src/Lib/SitemapGenerator.php:382-388 | the leaves over a sequence of combinations yield at most one rule each |
| SitemapGenerator.EmitAllAppend | src/Lib/SitemapGenerator.php:368-389 | emission distributes over concatenation of combination sequences, so rules keep the visiting order |
| SitemapGenerator.GenRoute | src/Lib/SitemapGenerator.php:368-389 | appends the rule of each visited combination that is kept, in visiting order |
| SitemapGenerator.GenCandidates | src/Lib/SitemapGenerator.php:372-376 | one recursive call per candidate, in list order, each on the map with that key replaced |
| SitemapGenerator.EmittedRulesAreResolved | src/Lib/SitemapGenerator.php:382-388 | every emitted rule belongs to a non-empty combination that the oracle accepted, for a named route |
| SitemapGenerator.AcceptedCombinationsEmitted | src/Lib/SitemapGenerator.php:382-388 | every non-empty combination of a named route that the oracle accepts yields its rule, so the rules are exactly those of the accepted combinations |
| SitemapGenerator.AllResolvedAllEmitted | src/Lib/SitemapGenerator.php:382-388 | when the oracle accepts every combination of a named route, each combination yields its rule, in order |
| SitemapGenerator.UnnamedRouteEmitsNothing | src/Lib/SitemapGenerator.php:382-402 | a route without a truthy name emits nothing from its combinations |
| SitemapGenerator.EmptyMapEmitsNothing | src/Lib/SitemapGenerator.php:370-382 | an empty parameter map emits nothing, because `$filtered` stays false |
| SitemapGenerator.ExpansionCount | src/Lib/SitemapGenerator.php:368-389 | when the oracle accepts every combination, a named route with a non-empty map gets one rule per element of the product |
| SitemapGenerator.PushValue | src/Lib/SitemapGenerator.php:314-317 | creates the key on its first value, then appends the value |
| SitemapGenerator.SetParamForEnum | src/Lib/SitemapGenerator.php:309-320 | every case value of the enum under the parameter's name, in `toArray` order; the key is absent for an enum without cases |
| SitemapGenerator.ModelCandidates | src/Lib/SitemapGenerator.php:337-357 | every selected record of the model, in order, as its chosen column or as itself; the key is absent without records |
| SitemapGenerator.AddPage | src/Lib/SitemapGenerator.php:349-354 | one page's records are appended after those of the earlier pages |
| SitemapGenerator.SetParamsForModel | src/Lib/SitemapGenerator.php:331-358 | returns the model's candidates after paging through all records, with ceil(n/10)+1 page requests for n records |
| SitemapGenerator.ProcessWithRouteBinderParam | src/Lib/SitemapGenerator.php:276-300 | resolves the binder target by its class kind |
| SitemapGenerator.BinderCandidates | src/Lib/SitemapGenerator.php:281-298 | a binder contributes at most one entry, a list under the parameter's own name; its only errors are the reflection error and "Unhandled class type" |
| SitemapGenerator.BinderTargetKinds | src/Lib/SitemapGenerator.php:281-298 | a binder target `[className, column]` yields the model's records as that column, or the enum's values in order; any other class raises "Unhandled class type", and a missing class raises the reflection error |
| SitemapGenerator.EffectiveName | src/Lib/SitemapGenerator.php:180-186 | the route's declared parameter name at the same position when there is one, else the controller parameter's own name |
| SitemapGenerator.DeclaredKind | src/Lib/SitemapGenerator.php:175-177 | a declared class that does not exist raises the reflection error; a builtin or absent type has no class |
| SitemapGenerator.ResolveStep | src/Lib/SitemapGenerator.php:172-213 | reflection errors come first and an unnamed route fails next; a binder-bound parameter adds the binder's candidates (or its failure) to `rParams` by union whatever its declared type, and `[pName => null]` or the same candidates to `rParamsNullable`; otherwise a model-typed parameter adds the model's records the same way; any other parameter changes only `hasNullable`; `hasNullable` accumulates `allowsNull` and `hasModels` never goes back to false |
| SitemapGenerator.StepEntries | src/Lib/SitemapGenerator.php:175-212 | a parameter contributes entries only when it is binder-bound or model-typed, and nothing otherwise; an unnamed route never succeeds |
| SitemapGenerator.ResolveFailureSticks | src/Lib/SitemapGenerator.php:172-214 | the first error of the foreach is the error of `handleParams` |
| SitemapGenerator.ResolveParamsInvariants | src/Lib/SitemapGenerator.php:166-214 | after the foreach, `hasNullable` is true exactly when some parameter allows null; both maps have distinct keys; `hasModels` is true exactly when some parameter is binder-bound or model-typed, and without one both maps are empty |
| SitemapGenerator.FirstResolutionWins | src/Lib/SitemapGenerator.php:197-212 | a name already present in either map keeps its first resolution |
| SitemapGenerator.NullableParamHoldsNull | src/Lib/SitemapGenerator.php:197-212 | in the nullable map, a nullable binder-bound or model-typed parameter with a new name holds the single value null, not a list |
| SitemapGenerator.HandleParam | src/Lib/SitemapGenerator.php:173-213 | one iteration of the foreach computes `ResolveStep`: reflection, effective name, the type error of the debug call for an unnamed route, then the binder's candidates taking precedence over a model-typed parameter's records |
| SitemapGenerator.EmitResolved | src/Lib/SitemapGenerator.php:217-232 | the single static rule, or the expansion rules followed by those of the nullable pass |
| SitemapGenerator.HandleParams | src/Lib/SitemapGenerator.php:160-233 | appends exactly the rules of the resolved parameters; on an error, including the type error an unnamed route raises, it appends nothing and reports that error |
| SitemapGenerator.StaticRouteSingleRule | src/Lib/SitemapGenerator.php:217-226 | with no filtered parameter, or none binder-bound or model-typed, a named route produces exactly one rule (its own URL) and an unnamed route raises; any other oracle gives the same result |
| SitemapGenerator.SelectedConditionsIgnoreOracle | src/Traits/SitemapRouteConditions.php:46-49 | condition selection does not depend on the binding oracle |
| SitemapGenerator.ModelCandidatesIgnoreOracle | src/Lib/SitemapGenerator.php:337-357 | model candidates do not depend on the binding oracle |
| SitemapGenerator.StepEntriesIgnoreOracle | src/Lib/SitemapGenerator.php:172-213 | classifying one parameter does not consult the binding oracle |
| SitemapGenerator.ResolveParamsIgnoreOracle | src/Lib/SitemapGenerator.php:166-214 | parameter resolution does not consult the binding oracle |
| SitemapGenerator.SingleModelParamRules | src/Lib/SitemapGenerator.php:172-232 | a named route whose one filtered parameter is model-typed and not binder-bound, with every combination accepted, gets one rule per selected record, in order, binding the record itself, plus one rule for `[pName => null]` when the parameter allows null |
| SitemapGenerator.SingleModelResolution | src/Lib/SitemapGenerator.php:172-213 | the foreach over that one parameter yields `hasModels`, the nullable flag and the model's records in both maps, `[pName => null]` in the nullable map when the parameter allows null |
| SitemapGenerator.RecordRules | src/Lib/SitemapGenerator.php:368-389 | a list of records under one name yields one rule per record, in order |
| SitemapGenerator.NullEntryRule | src/Lib/SitemapGenerator.php:229-232 | the nullable pass of a single nullable parameter yields the one rule for `[pName => null]` |
| SitemapGenerator.NullablePassIff | src/Lib/SitemapGenerator.php:172-232 | when some filtered parameter is binder-bound or model-typed, the nullable pass runs exactly when some filtered parameter allows null |
| SitemapGenerator.FilterParams | src/Lib/SitemapGenerator.php:139-145 | keeps exactly the parameters whose class is a model or whose name is a route parameter name; fails exactly when some declared class does not exist |
| SitemapGenerator.FilterParamsAppend | src/Lib/SitemapGenerator.php:139-145 | the filter distributes over concatenation, so kept parameters keep signature order, and the first unknown class in signature order is the error |
| SitemapGenerator.HandleRoute | src/Lib/SitemapGenerator.php:131-148 | filters the controller parameters, then appends what `handleParams` produces |
| SitemapGenerator.UnnamedRouteFails | src/Lib/SitemapGenerator.php:172-226 | a listed unnamed route always raises; once the filter's reflection succeeds, the error is the type error of the null name |
| SitemapGenerator.UnnamedListedRouteFailsRun | src/Lib/SitemapGenerator.php:92-102 | one listed unnamed route anywhere in the registry makes the whole route loop fail |
| SitemapGenerator.RoutesRulesSnoc | src/Lib/SitemapGenerator.php:92-102 | the route loop adds one route after the rules of the routes before it |
| SitemapGenerator.RoutesFailureSticks | src/Lib/SitemapGenerator.php:92-102 | the first error in route order ends the run with that error |
| SitemapGenerator.RoutesRulesAppend | src/Lib/SitemapGenerator.php:92-102 | the rules of `a + b` are those of `a` followed by those of `b`, and the first error in route order is the one reported |
| SitemapGenerator.SequenceAssoc | src/Lib/SitemapGenerator.php:92-102 | chaining the results of consecutive routes is associative |
| SitemapGenerator.UnlistedRouteAddsNothing | src/Lib/SitemapGenerator.php:93-99 | an ignored or non-GET route contributes nothing, wherever it stands |
| SitemapGenerator.CollectRules | src/Lib/SitemapGenerator.php:89-102 | the route loop computes the rules of every listed route, in route order, or the first error |
| SitemapGenerator.Urls | src/Lib/SitemapGenerator.php:104-109 | one entry per rule, in order: the rule's URL, frequency and priority, with the given date |
| SitemapGenerator.Generator.constructor | src/Lib/SitemapGenerator.php:38-41 | the sitemap starts empty |
| SitemapGenerator.Generator.AddAll | src/Lib/SitemapGenerator.php:104-109 | appends one entry per rule, in order, and nothing else |
| SitemapGenerator.Generator.Generate | src/Lib/SitemapGenerator.php:76-110 | binder validation runs first; on any error the sitemap is unchanged and the error is reported; otherwise the entries of every listed route are appended, in route order |

## Left out

- Rendering: the Spatie `Sitemap`/`Url` XML rendering and `writeToFile` are not modelled. The sitemap is a sequence of entries that `Generate` appends to; Spatie's own check for identical entries inside `add` is not part of this model.
- Dates: `Carbon::yesterday()` is not modelled; the date is a parameter of `Generate`.
- Configuration: `config()` loading into static fields (`initConfig*`) is not modelled; the tables are passed as the `Config` value.
- `$defaultIgnoreRoutes` is declared but never read, so nothing models it.
- Debug output: the text `debugHandlingParams` dumps is not modelled. What its `string $routeName` parameter does to an unnamed route is modelled: `SitemapGenerator.StepEntries` raises `UnnamedRoute` on the first pass of the foreach.
- Console and jobs: the console command, the queued job and the service provider (scheduling, file checks, logging) are not part of this model.
- Framework seams: reflection, `Schema::hasColumn`, Eloquent paging, `route()` and binding substitution are values of `Env`. Their internals are not modelled.
- The `route()` URL builder is total for a named route. Its exceptions for a name missing from the registry or for missing required URI parameters are not modelled, and neither is `Request::create`. For an unnamed route the static rule raises `UnnamedRoute`: `route(null)` at src/Lib/SitemapGenerator.php:221 finds no route and throws, before `getRouteFrequency` (line 222) is called.
- Priority values: float parsing (`is_numeric`, `floatval`) is not modelled, and priorities are `real`, without IEEE rounding.
- PHP loose comparison is not modelled. This covers `in_array`, `Collection::contains`, SQL type coercion in `where`, and integer-like string keys, which PHP turns into integers and `array_merge` renumbers.
- Union and intersection parameter types are not modelled; a declared type is one class name or none.
- SitemapGenerator.BinderCandidates: a binder entry shorter than two elements can reach `processWithRouteBinderParam` only after the validator's early exit. Its missing elements read as null here, whereas the framework's error handler may turn the undefined-offset warning into an exception.
- SitemapGenerator.SetParamsForModel: the query runs once and the pages are slices of its result, so rows inserted or deleted between page requests are not modelled.
- Behaviours of the code that the model keeps as written:
  - ignore entries are compared with the route's URI only, never with its name (`RouteConditions.IgnoreIsOrderIndependent`);
  - paging stops at the first empty page, so n records take ceil(n/10)+1 page requests (`SitemapGenerator.SetParamsForModel`);
  - the binder validation returns at the first enum target and checks nothing after it (`RouteBinder.EarlyExitAtFirstEnum`);
  - `$rParams += …` keeps the first resolution of a parameter name and ignores later ones (`SitemapGenerator.FirstResolutionWins`).
