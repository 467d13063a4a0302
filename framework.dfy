/** Values and collaborators shared by the sitemap generator and its three
    behaviour components: the route registry's routes and controller
    parameters, the values a route parameter can take, the errors a
    generation run can raise, and an abstract view of the framework
    (reflection, database schema, record store, URL builder and the
    binding-resolution simulation). */
module Framework {

  datatype Option<T> = None | Some(value: T)

  /** The single domain error of a run, one constructor per message the
      generator or the binder validator raises. `UnnamedRoute` stands for
      the two exceptions an unnamed route's null name causes: the type error
      of the debug call's `string` parameter inside the foreach, and the
      exception of `route(null)` when the static rule is built. */
  datatype Error =
    | RouteDoesNotExist(routeName: string)
    | BinderArity(routeName: string, paramName: string)
    | NotAModelClass(routeName: string, paramName: string)
    | NoSuchColumn(routeName: string, paramName: string, column: string, className: string)
    | UnhandledClassType(className: string)
    | NoSuchClass(className: string)
    | UnnamedRoute(uri: string)

  /** Outcome of an operation that either finishes or throws. */
  datatype Result<T> = Success(value: T) | Failure(error: Error) {
    predicate IsFailure() { Failure? }
    function PropagateFailure<U>(): Result<U> requires Failure? { Failure(error) }
    function Extract(): T requires Success? { value }
  }

  datatype Outcome = Pass | Fail(error: Error)

  /** Scalars stored in a database column or carried by an enum case. */
  datatype Scalar = Null | Str(s: string) | Int(i: int)

  /** One database record: its columns and their values. */
  datatype Record = Record(fields: map<string, Scalar>)

  /** A concrete route-parameter value: a scalar (a chosen column, an enum
      value, or null) or a whole model instance. */
  datatype Value = Plain(scalar: Scalar) | Instance(record: Record)

  /** A parameter-map entry: a concrete value, or the ordered list of
      candidates still to be expanded (a PHP array value). */
  datatype Entry = Fixed(value: Value) | Candidates(values: seq<Value>)

  /** Ordered map from parameter name to entry (a PHP array with string keys). */
  type ParamMap = seq<(string, Entry)>

  /** A controller parameter as reflection sees it. `typeName` is the class
      name of a non-builtin declared type, and None for builtin or absent types. */
  datatype Param = Param(name: string, position: nat, typeName: Option<string>, allowsNull: bool)

  /** A registered route. `name` is "" for an unnamed route; `paramNames` are
      the parameter names declared in the URI; `signature` lists the
      controller's parameters in declaration order. */
  datatype Route = Route(
    name: string,
    uri: string,
    methods: seq<string>,
    middleware: seq<string>,
    paramNames: seq<string>,
    signature: seq<Param>)

  /** What reflection says about a class name: an Eloquent model with its
      table, a routable enum with its cases in `toArray` order, or anything else. */
  datatype ClassKind = ModelClass(table: string) | EnumClass(cases: seq<Scalar>) | OtherClass

  /** The framework around the core, as values:
      - `routes`: the route registry, in iteration order;
      - `classes`: reflection over class names (absent: the class does not exist);
      - `columns`: the columns of each database table;
      - `store`: the records of each model class, in query order;
      - `url`: the `route()` URL builder;
      - `resolves`: whether the framework can bind every parameter of the
        named route to the given values without a not-found failure. */
  datatype Env = Env(
    routes: seq<Route>,
    classes: map<string, ClassKind>,
    columns: map<string, set<string>>,
    store: map<string, seq<Record>>,
    url: (string, ParamMap) -> string,
    resolves: (string, ParamMap) -> bool)

  /** `new ReflectionClass(name)`: the kind, or None when the class does not exist. */
  function Reflect(env: Env, className: string): (r: Option<ClassKind>)
    ensures r.Some? <==> className in env.classes
  {
    if className in env.classes then Some(env.classes[className]) else None
  }

  /** `Schema::hasColumn(table, column)`. */
  predicate HasColumn(env: Env, table: string, column: string)
  {
    table in env.columns && column in env.columns[table]
  }

  /** PHP truthiness of a string: neither empty nor "0". */
  predicate Truthy(s: string)
  {
    s != "" && s != "0"
  }

  /** The route registry's `hasNamedRoute`: only routes with a truthy name
      are indexed by name, so "" and "0" are never found. */
  function HasNamedRoute(env: Env, name: string): (r: bool)
    ensures !Truthy(name) ==> !r
    ensures Truthy(name) ==> (r <==> exists i :: 0 <= i < |env.routes| && env.routes[i].name == name)
  {
    Truthy(name) && exists i :: 0 <= i < |env.routes| && env.routes[i].name == name
  }
}
