/**
 * The OpenAPI 3 document of pkg/apio/openapi3: the parameter list of an
 * endpoint, the path items, the component schemas of an API and the document
 * that ToOpenApi3 puts together from them.
 */
module OpenApi3Document {
  import opened Wrappers
  import opened Strings
  import opened Reflect
  import opened Analysis
  import opened Input
  import opened Output
  import opened OpenApi3

  // ---------------------------------------------------------------------------
  // What the generator reads of an endpoint and of an API

  /**
   * An endpoint as apioapi3.go sees it: its HTTP method, its path pattern, its
   * texts and its input and output types.
   */
  datatype Endpoint = Endpoint(
    verb: string,
    pathPattern: string,
    summary: string,
    description: string,
    id: string,
    input: InputTypes,
    inputDescription: string,
    output: OutputTypes,
    outputDescription: string)

  /** A published server. */
  datatype ServerDecl = ServerDecl(name: string, description: string, scheme: string, host: string, port: int, basePath: string)

  datatype Api = Api(name: string, description: string, version: string, servers: seq<ServerDecl>, endpoints: seq<Endpoint>)

  /** The analysis of the input body type; a type that does not analyze is a panic. */
  function GetBodyInputInfo(e: Endpoint): Result<AnalyzedStruct> {
    AnalyzeOrPanic(e.input.body, "failed to analyze struct")
  }

  /** The analysis of the output body type. */
  function GetBodyOutputInfo(e: Endpoint): Result<AnalyzedStruct> {
    GetBodyInfo(e.output)
  }

  // ---------------------------------------------------------------------------
  // GetParameters

  /** A parameter: `location` is the `in` of OpenAPI ("header", "path" or "query"). */
  datatype Parameter = Parameter(name: string, location: string, description: string, required: bool, schemaType: string)

  /** A field the parameter list shows: every one but a header whose lookup key is content-type. */
  predicate Listed(f: AnalyzedField, location: string) {
    !(location == "header" && f.lkName == "content-type")
  }

  /** Header and path parameters are always required; a query parameter when its field is. */
  predicate RequiredAt(f: AnalyzedField, location: string) {
    location != "query" || f.IsRequired()
  }

  /** The parameter for one listed field. */
  function FieldParameter(f: AnalyzedField, location: string): Result<Parameter> {
    var t :- OpenapiType(f.valueType);
    Success(Parameter(f.name, location, f.name, RequiredAt(f, location), t))
  }

  /** One of the three loops of GetParameters, after its first `n` fields. */
  function ParamsPrefix(fs: seq<AnalyzedField>, location: string, n: nat): Result<seq<Parameter>>
    requires n <= |fs|
    decreases n
  {
    if n == 0 then Success([])
    else
      var ps :- ParamsPrefix(fs, location, n - 1);
      ParamStep(ps, fs[n - 1], location)
  }

  /** One iteration of such a loop. */
  function ParamStep(ps: seq<Parameter>, f: AnalyzedField, location: string): Result<seq<Parameter>> {
    if !Listed(f, location) then Success(ps)
    else
      var p :- FieldParameter(f, location);
      Success(ps + [p])
  }

  /** GetParameters: the header parameters, then the path ones, then the query ones. */
  function Parameters(types: InputTypes): Result<seq<Parameter>> {
    var h :- GetHeaderInfo(types);
    var hs :- ParamsPrefix(h.fields, "header", |h.fields|);
    var p :- GetPathInfo(types);
    var ps :- ParamsPrefix(p.fields, "path", |p.fields|);
    var q :- GetQueryInfo(types);
    var qs :- ParamsPrefix(q.fields, "query", |q.fields|);
    Success(hs + ps + qs)
  }

  /** The fields among the first `n` that get a parameter, in order. */
  function ListedFields(fs: seq<AnalyzedField>, location: string, n: nat): seq<AnalyzedField>
    requires n <= |fs|
    decreases n
  {
    if n == 0 then []
    else ListedFields(fs, location, n - 1) + (if Listed(fs[n - 1], location) then [fs[n - 1]] else [])
  }

  /** A field is listed exactly when it is among the fields and is not the content-type header. */
  lemma {:induction false} ListedFieldsMembers(fs: seq<AnalyzedField>, location: string, n: nat)
    requires n <= |fs|
    ensures forall f :: f in ListedFields(fs, location, n) <==> (exists i :: 0 <= i < n && fs[i] == f) && Listed(f, location)
    decreases n
  {
    if n > 0 {
      ListedFieldsMembers(fs, location, n - 1);
      var prev := ListedFields(fs, location, n - 1);
      var tail: seq<AnalyzedField> := if Listed(fs[n - 1], location) then [fs[n - 1]] else [];
      forall f ensures f in prev + tail <==> (exists i :: 0 <= i < n && fs[i] == f) && Listed(f, location) {
        if (exists i :: 0 <= i < n && fs[i] == f) && Listed(f, location) {
          var i :| 0 <= i < n && fs[i] == f;
          if i < n - 1 {
            assert f in prev;
          } else {
            assert f in tail;
          }
        }
        if f in prev {
          var i :| 0 <= i < n - 1 && fs[i] == f;
          assert 0 <= i < n && fs[i] == f;
        }
      }
    }
  }

  /**
   * The parameters of one group are those of its listed fields, in field
   * order: the field's public name as name and description, the group as
   * location, the required rule of the group and goTypeToOpenapiType of the
   * field's value type. The loop succeeds exactly when every listed field has
   * such a type.
   */
  lemma {:induction false} ParamsPrefixSpec(fs: seq<AnalyzedField>, location: string, n: nat)
    requires n <= |fs|
    ensures ParamsPrefix(fs, location, n).Success? <==>
      forall j :: 0 <= j < |ListedFields(fs, location, n)| ==> OpenapiType(ListedFields(fs, location, n)[j].valueType).Success?
    ensures ParamsPrefix(fs, location, n).Success? ==>
      var ps := ParamsPrefix(fs, location, n).value; var ls := ListedFields(fs, location, n);
      && |ps| == |ls|
      && forall j :: 0 <= j < |ps| ==>
           && ps[j].name == ls[j].name && ps[j].description == ls[j].name
           && ps[j].location == location
           && ps[j].required == RequiredAt(ls[j], location)
           && OpenapiType(ls[j].valueType) == Success(ps[j].schemaType)
    decreases n
  {
    if n > 0 {
      ParamsPrefixSpec(fs, location, n - 1);
      var ls := ListedFields(fs, location, n);
      var prev := ListedFields(fs, location, n - 1);
      if Listed(fs[n - 1], location) {
        assert ls == prev + [fs[n - 1]];
        assert forall j :: 0 <= j < |prev| ==> ls[j] == prev[j];
        assert ls[|prev|] == fs[n - 1];
        assert (forall j :: 0 <= j < |ls| ==> OpenapiType(ls[j].valueType).Success?) <==>
          (forall j :: 0 <= j < |prev| ==> OpenapiType(prev[j].valueType).Success?) && OpenapiType(fs[n - 1].valueType).Success?;
        if ParamsPrefix(fs, location, n).Success? {
          var ps := ParamsPrefix(fs, location, n - 1).value;
          assert ParamsPrefix(fs, location, n).value == ps + [FieldParameter(fs[n - 1], location).value];
        }
      } else {
        assert ls == prev;
      }
    }
  }

  /** GetParameters lists no content-type header, and every other header field in order. */
  lemma ContentTypeSkipped(fs: seq<AnalyzedField>)
    ensures forall f :: f in ListedFields(fs, "header", |fs|) ==> f.lkName != "content-type"
    ensures forall i :: 0 <= i < |fs| && fs[i].lkName != "content-type" ==> fs[i] in ListedFields(fs, "header", |fs|)
  {
    ListedFieldsMembers(fs, "header", |fs|);
    forall i | 0 <= i < |fs| && fs[i].lkName != "content-type" ensures fs[i] in ListedFields(fs, "header", |fs|) {
      assert exists j :: 0 <= j < |fs| && fs[j] == fs[i];
    }
  }

  /** Path and query fields are all listed. */
  lemma {:induction false} AllListed(fs: seq<AnalyzedField>, location: string, n: nat)
    requires location != "header" && n <= |fs|
    ensures ListedFields(fs, location, n) == fs[..n]
    decreases n
  {
    if n > 0 {
      AllListed(fs, location, n - 1);
      assert fs[..n] == fs[..n - 1] + [fs[n - 1]];
    }
  }

  /** The fields of one group of GetParameters: a loop that appends one parameter per listed field. */
  method AppendParameters(result: seq<Parameter>, fs: seq<AnalyzedField>, location: string) returns (r: Result<seq<Parameter>>)
    ensures ParamsPrefix(fs, location, |fs|).Success? ==> r == Success(result + ParamsPrefix(fs, location, |fs|).value)
    ensures ParamsPrefix(fs, location, |fs|).Failure? ==> r == ParamsPrefix(fs, location, |fs|)
  {
    var ps: seq<Parameter> := [];
    for i := 0 to |fs|
      invariant ParamsPrefix(fs, location, i) == Success(ps)
    {
      var f := fs[i];
      if !Listed(f, location) {
        continue;
      }
      var t := OpenapiType(f.valueType);
      if t.Failure? {
        ParamsFailureSticks(fs, location, i + 1, |fs|);
        return Failure(t.error);
      }
      ps := ps + [Parameter(f.name, location, f.name, RequiredAt(f, location), t.value)];
    }
    assert result + ps == result + ParamsPrefix(fs, location, |fs|).value;
    r := Success(result + ps);
  }

  lemma {:induction false} ParamsFailureSticks(fs: seq<AnalyzedField>, location: string, i: nat, n: nat)
    requires i <= n <= |fs| && ParamsPrefix(fs, location, i).Failure?
    ensures ParamsPrefix(fs, location, n) == ParamsPrefix(fs, location, i)
    decreases n
  {
    if n > i {
      ParamsFailureSticks(fs, location, i, n - 1);
    }
  }

  /** GetParameters */
  method GetParameters(types: InputTypes) returns (r: Result<seq<Parameter>>)
    ensures r == Parameters(types)
  {
    var h := GetHeaderInfo(types);
    if h.Failure? {
      return Failure(h.error);
    }
    var result := AppendParameters([], h.value.fields, "header");
    if result.Failure? {
      return result;
    }
    assert result.value == ParamsPrefix(h.value.fields, "header", |h.value.fields|).value;
    var p := GetPathInfo(types);
    if p.Failure? {
      return Failure(p.error);
    }
    result := AppendParameters(result.value, p.value.fields, "path");
    if result.Failure? {
      return result;
    }
    var q := GetQueryInfo(types);
    if q.Failure? {
      return Failure(q.error);
    }
    r := AppendParameters(result.value, q.value.fields, "query");
  }

  /**
   * GetParameters succeeds exactly when the three facet types analyze and
   * every listed field has an OpenAPI type; then the header parameters come
   * first, the path parameters next and the query parameters last, each in
   * field order, and the path and query groups hold every field.
   */
  lemma ParametersSpec(types: InputTypes)
    ensures Parameters(types).Success? <==>
      && GetHeaderInfo(types).Success? && GetPathInfo(types).Success? && GetQueryInfo(types).Success?
      && ParamsPrefix(GetHeaderInfo(types).value.fields, "header", |GetHeaderInfo(types).value.fields|).Success?
      && ParamsPrefix(GetPathInfo(types).value.fields, "path", |GetPathInfo(types).value.fields|).Success?
      && ParamsPrefix(GetQueryInfo(types).value.fields, "query", |GetQueryInfo(types).value.fields|).Success?
    ensures Parameters(types).Success? ==>
      var hf := GetHeaderInfo(types).value.fields;
      var pf := GetPathInfo(types).value.fields;
      var qf := GetQueryInfo(types).value.fields;
      && Parameters(types).value ==
           ParamsPrefix(hf, "header", |hf|).value + ParamsPrefix(pf, "path", |pf|).value + ParamsPrefix(qf, "query", |qf|).value
      && ListedFields(pf, "path", |pf|) == pf
      && ListedFields(qf, "query", |qf|) == qf
  {
    if Parameters(types).Success? {
      var pf := GetPathInfo(types).value.fields;
      var qf := GetQueryInfo(types).value.fields;
      AllListed(pf, "path", |pf|);
      AllListed(qf, "query", |qf|);
      assert pf[..|pf|] == pf;
      assert qf[..|qf|] == qf;
    }
  }

  // ---------------------------------------------------------------------------
  // GetPaths

  /** The schema reference of a body: `$ref` to its component schema under "application/json". */
  function JsonContent(info: AnalyzedStruct): map<string, string> {
    map["application/json" := RefText(SchemaNameOf(info))]
  }

  datatype Response = Response(description: string, content: map<string, string>)

  datatype RequestBody = RequestBody(description: string, content: map<string, string>)

  datatype Operation = Operation(
    summary: string,
    description: string,
    operationId: string,
    parameters: seq<Parameter>,
    requestBody: Option<RequestBody>,
    responses: map<string, Response>)

  /** The path as written: indexing the empty converted pattern is a run-time panic. */
  function PathKeyAsWritten(pattern: string): Result<string> {
    var path := OpenApiPattern(pattern);
    if |path| == 0 then Failure(InternalError("index out of range"))
    else if path[0] != '/' then Success("/" + path)
    else Success(path)
  }

  /** The path as evidently intended: the root endpoint gets "/". */
  function PathKey(pattern: string): string {
    var path := OpenApiPattern(pattern);
    if path == "" || path[0] != '/' then "/" + path else path
  }

  /**
   * The guard of GetPaths panics exactly for patterns that convert to the
   * empty path, such as "" and "/"; otherwise it changes nothing, since a
   * converted pattern begins with a slash. The corrected key is "/" for
   * those patterns and the converted pattern for all others, so it always
   * begins with a slash and has no empty segment.
   */
  lemma PathKeySpec(pattern: string)
    ensures PathKeyAsWritten(pattern).Failure? <==> OpenApiPattern(pattern) == ""
    ensures PathKeyAsWritten(pattern).Success? ==>
      PathKeyAsWritten(pattern).value == OpenApiPattern(pattern) == PathKey(pattern)
    ensures PathKey(pattern) == if OpenApiPattern(pattern) == "" then "/" else OpenApiPattern(pattern)
    ensures PathKey(pattern)[0] == '/'
    ensures forall i :: 0 <= i < |PathKey(pattern)| - 1 && PathKey(pattern)[i] == '/' ==> PathKey(pattern)[i + 1] != '/'
  {
    OpenApiPatternShaped(pattern);
  }

  /** The root pattern converts to the empty path, where the code as written panics. */
  lemma RootPathPanics()
    ensures OpenApiPattern("/") == ""
    ensures PathKeyAsWritten("/").Failure?
    ensures PathKey("/") == "/"
  {
    assert Split("/", '/') == ["", ""] by {
      assert Split("", '/') == [""];
      assert "/"[1..] == "";
    }
    assert TrimSpace("") == "" by {
      TrimSpaceOfTrimmed("");
    }
    assert PatternPrefix(["", ""], 2) == "";
  }


  /** The operation of one endpoint, with its body infos. */
  function OperationOf(e: Endpoint): Result<Operation> {
    var outputBodyInfo :- GetBodyOutputInfo(e);
    var inputBodyInfo :- GetBodyInputInfo(e);
    var params :- Parameters(e.input);
    var code :- OkCode(e.output.body);
    var outputContent := if outputBodyInfo.HasContent() then JsonContent(outputBodyInfo) else map[];
    var requestBody := if inputBodyInfo.HasContent() then Some(RequestBody(e.inputDescription, JsonContent(inputBodyInfo))) else None;
    Success(Operation(e.summary, e.description, e.id, params, requestBody,
                      map[Itoa(code) := Response(e.outputDescription, outputContent)]))
  }

  /** The operations of a list of endpoints, one per endpoint. */
  function Operations(es: seq<Endpoint>): (ops: seq<Result<Operation>>)
    ensures |ops| == |es|
  {
    seq(|es|, i requires 0 <= i < |es| => OperationOf(es[i]))
  }

  /** Where GetPaths files an endpoint's operation: under its path, then its lower-case method. */
  datatype Route = Route(path: string, verb: string)

  function RouteOf(e: Endpoint): Route {
    Route(PathKey(e.pathPattern), ToLower(e.verb))
  }

  /** The routes of a list of endpoints, one per endpoint. */
  function Routes(es: seq<Endpoint>): (routes: seq<Route>)
    ensures |routes| == |es|
  {
    seq(|es|, i requires 0 <= i < |es| => RouteOf(es[i]))
  }

  /** The operation `op` filed under `route`. */
  function AddOperation(result: map<string, map<string, Operation>>, route: Route, op: Operation): map<string, map<string, Operation>> {
    var methods := if route.path in result then result[route.path] else map[];
    result[route.path := methods[route.verb := op]]
  }

  /** GetPaths after its first `n` endpoints, whose routes are `routes` and whose operations are `ops`. */
  function PathsPrefix(routes: seq<Route>, ops: seq<Result<Operation>>, n: nat): Result<map<string, map<string, Operation>>>
    requires |ops| == |routes| && n <= |routes|
    decreases n
  {
    if n == 0 then Success(map[])
    else
      var result :- PathsPrefix(routes, ops, n - 1);
      var op :- ops[n - 1];
      Success(AddOperation(result, routes[n - 1], op))
  }

  /** GetPaths */
  function Paths(es: seq<Endpoint>): Result<map<string, map<string, Operation>>> {
    PathsPrefix(Routes(es), Operations(es), |es|)
  }

  /** Endpoint `i` is the last of the first `n` with its route. */
  predicate LastFor(routes: seq<Route>, n: nat, i: nat)
    requires i < n <= |routes|
  {
    forall j :: i < j < n ==> routes[j] != routes[i]
  }

  /** Some endpoint among the first `n` has this path. */
  predicate HasPath(routes: seq<Route>, n: nat, path: string)
    requires n <= |routes|
  {
    exists i :: 0 <= i < n && routes[i].path == path
  }

  /** Some endpoint among the first `n` has this route. */
  predicate HasRoute(routes: seq<Route>, n: nat, route: Route)
    requires n <= |routes|
  {
    exists i :: 0 <= i < n && routes[i] == route
  }

  /** The loop of GetPaths succeeds exactly when every endpoint's operation can be built. */
  lemma {:induction false} PathsPrefixSuccess(routes: seq<Route>, ops: seq<Result<Operation>>, n: nat)
    requires |ops| == |routes| && n <= |routes|
    ensures PathsPrefix(routes, ops, n).Success? <==> forall i :: 0 <= i < n ==> ops[i].Success?
    decreases n
  {
    if n > 0 {
      PathsPrefixSuccess(routes, ops, n - 1);
    }
  }

  /** Its path items are exactly the paths of the endpoints. */
  lemma {:induction false} PathsPrefixKeys(routes: seq<Route>, ops: seq<Result<Operation>>, n: nat)
    requires |ops| == |routes| && n <= |routes|
    requires PathsPrefix(routes, ops, n).Success?
    ensures forall path :: path in PathsPrefix(routes, ops, n).value <==> HasPath(routes, n, path)
    decreases n
  {
    if n > 0 {
      PathsPrefixKeys(routes, ops, n - 1);
      var prev := PathsPrefix(routes, ops, n - 1).value;
      var r := PathsPrefix(routes, ops, n).value;
      assert r == AddOperation(prev, routes[n - 1], ops[n - 1].value);
      forall path ensures path in r <==> HasPath(routes, n, path) {
        if path in prev {
          var i :| 0 <= i < n - 1 && routes[i].path == path;
          assert 0 <= i < n && routes[i].path == path;
        }
        if HasPath(routes, n, path) {
          var i :| 0 <= i < n && routes[i].path == path;
          if i < n - 1 {
            assert HasPath(routes, n - 1, path);
          }
        }
      }
    }
  }

  /** The methods under a path item are exactly those of the endpoints on that path. */
  lemma {:induction false} PathsPrefixMethods(routes: seq<Route>, ops: seq<Result<Operation>>, n: nat)
    requires |ops| == |routes| && n <= |routes|
    requires PathsPrefix(routes, ops, n).Success?
    ensures var r := PathsPrefix(routes, ops, n).value;
      forall path, m :: path in r ==> (m in r[path] <==> HasRoute(routes, n, Route(path, m)))
    decreases n
  {
    if n > 0 {
      PathsPrefixMethods(routes, ops, n - 1);
      var prev := PathsPrefix(routes, ops, n - 1).value;
      var r := PathsPrefix(routes, ops, n).value;
      var last := routes[n - 1];
      assert r == AddOperation(prev, last, ops[n - 1].value);
      forall path, m | path in r ensures m in r[path] <==> HasRoute(routes, n, Route(path, m)) {
        if path == last.path {
          assert m in r[path] <==> m == last.verb || (path in prev && m in prev[path]);
        } else {
          assert path in prev && r[path] == prev[path];
        }
        if path in prev && m in prev[path] {
          var i :| 0 <= i < n - 1 && routes[i] == Route(path, m);
          assert 0 <= i < n && routes[i] == Route(path, m);
        }
        if HasRoute(routes, n, Route(path, m)) {
          var i :| 0 <= i < n && routes[i] == Route(path, m);
          if i < n - 1 {
            assert HasRoute(routes, n - 1, Route(path, m));
            PathsPrefixKeys(routes, ops, n - 1);
            assert HasPath(routes, n - 1, path);
          }
        }
      }
    }
  }

  /** The operation under a route is that of the last endpoint with the route. */
  lemma {:induction false} PathsPrefixLast(routes: seq<Route>, ops: seq<Result<Operation>>, n: nat)
    requires |ops| == |routes| && n <= |routes|
    requires PathsPrefix(routes, ops, n).Success?
    ensures var r := PathsPrefix(routes, ops, n).value;
      forall i :: 0 <= i < n && LastFor(routes, n, i) ==>
        && ops[i].Success? && routes[i].path in r && routes[i].verb in r[routes[i].path]
        && r[routes[i].path][routes[i].verb] == ops[i].value
    decreases n
  {
    PathsPrefixSuccess(routes, ops, n);
    if n > 0 {
      PathsPrefixLast(routes, ops, n - 1);
      var prev := PathsPrefix(routes, ops, n - 1).value;
      var r := PathsPrefix(routes, ops, n).value;
      assert r == AddOperation(prev, routes[n - 1], ops[n - 1].value);
      forall i | 0 <= i < n && LastFor(routes, n, i)
        ensures ops[i].Success? && routes[i].path in r && routes[i].verb in r[routes[i].path]
        ensures r[routes[i].path][routes[i].verb] == ops[i].value
      {
        if i < n - 1 {
          assert LastFor(routes, n - 1, i);
          assert routes[n - 1] != routes[i];
        }
      }
    }
  }

  /**
   * The loop of GetPaths succeeds exactly when every endpoint's operation can
   * be built. Then it has a path item for exactly the paths of the endpoints,
   * an operation in it for exactly the methods of the endpoints on that path,
   * and that operation is the one of the last such endpoint.
   */
  lemma PathsPrefixSpec(routes: seq<Route>, ops: seq<Result<Operation>>, n: nat)
    requires |ops| == |routes| && n <= |routes|
    ensures PathsPrefix(routes, ops, n).Success? <==> forall i :: 0 <= i < n ==> ops[i].Success?
    ensures PathsPrefix(routes, ops, n).Success? ==> var r := PathsPrefix(routes, ops, n).value;
      && (forall path :: path in r <==> HasPath(routes, n, path))
      && (forall path, m :: path in r ==> (m in r[path] <==> HasRoute(routes, n, Route(path, m))))
      && (forall i :: 0 <= i < n && LastFor(routes, n, i) ==> r[routes[i].path][routes[i].verb] == ops[i].value)
  {
    PathsPrefixSuccess(routes, ops, n);
    if PathsPrefix(routes, ops, n).Success? {
      PathsPrefixKeys(routes, ops, n);
      PathsPrefixMethods(routes, ops, n);
      PathsPrefixLast(routes, ops, n);
    }
  }

  lemma {:induction false} PathsFailureSticks(routes: seq<Route>, ops: seq<Result<Operation>>, i: nat, n: nat)
    requires |ops| == |routes| && i <= n <= |routes| && PathsPrefix(routes, ops, i).Failure?
    ensures PathsPrefix(routes, ops, n) == PathsPrefix(routes, ops, i)
    decreases n
  {
    if n > i {
      PathsFailureSticks(routes, ops, i, n - 1);
    }
  }

  /**
   * GetPaths succeeds exactly when every endpoint's operation can be built.
   * Then its keys are exactly the endpoints' paths, the methods under a path
   * are exactly the lower-cased methods of the endpoints on it, and each
   * holds the operation of the last endpoint with that path and method.
   */
  lemma PathsSpec(es: seq<Endpoint>)
    ensures Paths(es).Success? <==> forall i :: 0 <= i < |es| ==> OperationOf(es[i]).Success?
    ensures Paths(es).Success? ==> var r := Paths(es).value;
      && (forall path :: path in r <==> exists i :: 0 <= i < |es| && PathKey(es[i].pathPattern) == path)
      && (forall path, m :: path in r ==>
            (m in r[path] <==> exists i :: 0 <= i < |es| && PathKey(es[i].pathPattern) == path && ToLower(es[i].verb) == m))
      && (forall i :: 0 <= i < |es| && LastFor(Routes(es), |es|, i) ==>
            r[PathKey(es[i].pathPattern)][ToLower(es[i].verb)] == OperationOf(es[i]).value)
  {
    PathsSuccess(es);
    if Paths(es).Success? {
      PathsKeys(es);
      PathsMethods(es);
      PathsLast(es);
    }
  }

  lemma PathsSuccess(es: seq<Endpoint>)
    ensures Paths(es).Success? <==> forall i :: 0 <= i < |es| ==> OperationOf(es[i]).Success?
  {
    var ops := Operations(es);
    PathsPrefixSuccess(Routes(es), ops, |es|);
    assert forall i :: 0 <= i < |es| ==> ops[i] == OperationOf(es[i]);
  }

  lemma PathsKeys(es: seq<Endpoint>)
    requires Paths(es).Success?
    ensures forall path :: path in Paths(es).value <==> exists i :: 0 <= i < |es| && PathKey(es[i].pathPattern) == path
  {
    var routes := Routes(es);
    PathsPrefixKeys(routes, Operations(es), |es|);
    forall path ensures path in Paths(es).value <==> exists i :: 0 <= i < |es| && PathKey(es[i].pathPattern) == path {
      if path in Paths(es).value {
        var i :| 0 <= i < |es| && routes[i].path == path;
        assert PathKey(es[i].pathPattern) == path;
      }
      if exists i :: 0 <= i < |es| && PathKey(es[i].pathPattern) == path {
        var i :| 0 <= i < |es| && PathKey(es[i].pathPattern) == path;
        assert routes[i].path == path;
      }
    }
  }

  lemma PathsMethods(es: seq<Endpoint>)
    requires Paths(es).Success?
    ensures var r := Paths(es).value; forall path, m :: path in r ==>
      (m in r[path] <==> exists i :: 0 <= i < |es| && PathKey(es[i].pathPattern) == path && ToLower(es[i].verb) == m)
  {
    var routes := Routes(es);
    var r := Paths(es).value;
    PathsPrefixMethods(routes, Operations(es), |es|);
    forall path, m | path in r
      ensures m in r[path] <==> exists i :: 0 <= i < |es| && PathKey(es[i].pathPattern) == path && ToLower(es[i].verb) == m
    {
      if m in r[path] {
        var i :| 0 <= i < |es| && routes[i] == Route(path, m);
        assert PathKey(es[i].pathPattern) == path && ToLower(es[i].verb) == m;
      }
      if exists i :: 0 <= i < |es| && PathKey(es[i].pathPattern) == path && ToLower(es[i].verb) == m {
        var i :| 0 <= i < |es| && PathKey(es[i].pathPattern) == path && ToLower(es[i].verb) == m;
        assert routes[i] == Route(path, m);
      }
    }
  }

  lemma PathsLast(es: seq<Endpoint>)
    requires Paths(es).Success?
    ensures forall i :: 0 <= i < |es| && LastFor(Routes(es), |es|, i) ==>
      && OperationOf(es[i]).Success? && PathKey(es[i].pathPattern) in Paths(es).value
      && ToLower(es[i].verb) in Paths(es).value[PathKey(es[i].pathPattern)]
      && Paths(es).value[PathKey(es[i].pathPattern)][ToLower(es[i].verb)] == OperationOf(es[i]).value
  {
    var routes := Routes(es);
    var ops := Operations(es);
    PathsPrefixLast(routes, ops, |es|);
    forall i | 0 <= i < |es| && LastFor(routes, |es|, i)
      ensures && OperationOf(es[i]).Success? && PathKey(es[i].pathPattern) in Paths(es).value
        && ToLower(es[i].verb) in Paths(es).value[PathKey(es[i].pathPattern)]
        && Paths(es).value[PathKey(es[i].pathPattern)][ToLower(es[i].verb)] == OperationOf(es[i]).value
    {
      assert routes[i] == RouteOf(es[i]) && ops[i] == OperationOf(es[i]);
    }
  }

  /** GetPaths: an operation per endpoint, under its path and lower-case method. */
  method GetPaths(es: seq<Endpoint>) returns (r: Result<map<string, map<string, Operation>>>)
    ensures r == Paths(es)
  {
    var result: map<string, map<string, Operation>> := map[];
    for i := 0 to |es|
      invariant PathsPrefix(Routes(es), Operations(es), i) == Success(result)
    {
      var route := GetRoute(es[i]);
      var op := GetOperation(es[i]);
      PathsStep(es, i, result, route, op);
      match op
      case Failure(err) =>
        return Failure(err);
      case Success(o) =>
        result := AddOperation(result, route, o);
    }
    r := Success(result);
  }

  /** One iteration of GetPaths: a failed operation fails it, any other is filed under its route. */
  lemma PathsStep(es: seq<Endpoint>, i: nat, result: map<string, map<string, Operation>>, route: Route, op: Result<Operation>)
    requires i < |es| && PathsPrefix(Routes(es), Operations(es), i) == Success(result)
    requires route == RouteOf(es[i]) && op == OperationOf(es[i])
    ensures op.Failure? ==> Paths(es) == Failure(op.error)
    ensures op.Success? ==> PathsPrefix(Routes(es), Operations(es), i + 1) == Success(AddOperation(result, route, op.value))
  {
    EndpointAt(es, i, route, op);
    PathsStepOf(Routes(es), Operations(es), i, result);
  }

  lemma EndpointAt(es: seq<Endpoint>, i: nat, route: Route, op: Result<Operation>)
    requires i < |es| && route == RouteOf(es[i]) && op == OperationOf(es[i])
    ensures Routes(es)[i] == route && Operations(es)[i] == op
  {
  }

  lemma PathsStepOf(routes: seq<Route>, ops: seq<Result<Operation>>, i: nat, result: map<string, map<string, Operation>>)
    requires |ops| == |routes| && i < |routes| && PathsPrefix(routes, ops, i) == Success(result)
    ensures ops[i].Failure? ==> PathsPrefix(routes, ops, |routes|) == Failure(ops[i].error)
    ensures ops[i].Success? ==> PathsPrefix(routes, ops, i + 1) == Success(AddOperation(result, routes[i], ops[i].value))
  {
    if ops[i].Failure? {
      PathsFailureSticks(routes, ops, i + 1, |routes|);
    }
  }

  /** The path key of GetPaths, with the guard for the root path, and the lower-case method. */
  method GetRoute(e: Endpoint) returns (r: Route)
    ensures r == RouteOf(e)
  {
    var path := ConvertPattern(e.pathPattern);
    if path == "" || path[0] != '/' {
      path := "/" + path;
    }
    r := Route(path, ToLower(e.verb));
  }

  /** The operation literal of GetPaths, in the order Go evaluates its parts. */
  method GetOperation(e: Endpoint) returns (r: Result<Operation>)
    ensures r == OperationOf(e)
  {
    var outputBodyInfo := GetBodyOutputInfo(e);
    if outputBodyInfo.Failure? {
      return Failure(outputBodyInfo.error);
    }
    var outputContent: map<string, string> := map[];
    if outputBodyInfo.value.HasContent() {
      outputContent := JsonContent(outputBodyInfo.value);
    }
    var inputBodyInfo := GetBodyInputInfo(e);
    if inputBodyInfo.Failure? {
      return Failure(inputBodyInfo.error);
    }
    var params := GetParameters(e.input);
    if params.Failure? {
      return Failure(params.error);
    }
    var code := OkCode(e.output.body).value;
    var requestBody: Option<RequestBody> := None;
    if inputBodyInfo.value.HasContent() {
      requestBody := Some(RequestBody(e.inputDescription, JsonContent(inputBodyInfo.value)));
    }
    r := Success(Operation(e.summary, e.description, e.id, params.value, requestBody,
                           map[Itoa(code) := Response(e.outputDescription, outputContent)]));
  }

  /**
   * The request body of an operation is there exactly when the input body
   * has analyzed fields, and its one content type refers to the input body's
   * schema; the one response is under the OK code of the output and refers to
   * the output body's schema when that has analyzed fields.
   */
  lemma OperationOfSpec(e: Endpoint)
    requires OperationOf(e).Success?
    ensures var op := OperationOf(e).value;
      && GetBodyOutputInfo(e).Success? && GetBodyInputInfo(e).Success?
      && var outInfo := GetBodyOutputInfo(e).value; var inInfo := GetBodyInputInfo(e).value;
      && Parameters(e.input) == Success(op.parameters)
      && (op.requestBody.Some? <==> inInfo.HasContent())
      && (op.requestBody.Some? ==> op.requestBody.value.content == map["application/json" := RefText(SchemaNameOf(inInfo))])
      && op.responses.Keys == {Itoa(if outInfo.HasContent() then StatusOK else StatusNoContent)}
      && (forall c :: c in op.responses ==>
            && op.responses[c].description == e.outputDescription
            && op.responses[c].content == if outInfo.HasContent() then map["application/json" := RefText(SchemaNameOf(outInfo))] else map[])
  {
  }

  /** A failing GetBodyInfo fails the operation, so GetPaths panics on that endpoint. */
  lemma OperationFailsFirstOnOutput(e: Endpoint)
    requires GetBodyOutputInfo(e).Failure?
    ensures OperationOf(e) == Failure(GetBodyOutputInfo(e).error)
  {
  }

  // ---------------------------------------------------------------------------
  // GetComponentsOfApi

  /** The schemas of one endpoint: those of the output body, then those of the input body. */
  function EndpointComponents(e: Endpoint): Result<map<string, Schema>> {
    var outInfo :- GetBodyOutputInfo(e);
    var inInfo :- GetBodyInputInfo(e);
    AnalyzedFieldsOf(e.output.body);
    AnalyzedFieldsOf(e.input.body);
    var outs :- StructComponents(e.output.body.decl, outInfo);
    var ins :- StructComponents(e.input.body.decl, inInfo);
    Success(outs + ins)
  }

  /** The schemas of each endpoint. */
  function EndpointsComponents(es: seq<Endpoint>): (parts: seq<Result<map<string, Schema>>>)
    ensures |parts| == |es|
  {
    seq(|es|, i requires 0 <= i < |es| => EndpointComponents(es[i]))
  }

  /** GetComponentsOfApi after its first `n` endpoints, whose schemas are `parts`. */
  function ComponentsPrefix(parts: seq<Result<map<string, Schema>>>, n: nat): Result<map<string, Schema>>
    requires n <= |parts|
    decreases n
  {
    if n == 0 then Success(map[])
    else
      var acc :- ComponentsPrefix(parts, n - 1);
      var c :- parts[n - 1];
      Success(acc + c)
  }

  function ApiComponents(es: seq<Endpoint>): Result<map<string, Schema>> {
    ComponentsPrefix(EndpointsComponents(es), |es|)
  }

  /**
   * The merge succeeds exactly when every part does; then it holds every key
   * of every part, under the value of the last part that has it, and it is
   * closed when every part is.
   */
  lemma {:induction false} ComponentsPrefixSpec(parts: seq<Result<map<string, Schema>>>, n: nat)
    requires n <= |parts|
    ensures ComponentsPrefix(parts, n).Success? <==> forall i :: 0 <= i < n ==> parts[i].Success?
    ensures ComponentsPrefix(parts, n).Success? ==>
      && (forall i :: 0 <= i < n ==> parts[i].value.Keys <= ComponentsPrefix(parts, n).value.Keys)
      && (forall k :: k in ComponentsPrefix(parts, n).value <==> exists i :: 0 <= i < n && k in parts[i].value)
    ensures ComponentsPrefix(parts, n).Success? && (forall i :: 0 <= i < n ==> Closed(parts[i].value)) ==>
      Closed(ComponentsPrefix(parts, n).value)
    decreases n
  {
    if n > 0 {
      ComponentsPrefixSpec(parts, n - 1);
      if ComponentsPrefix(parts, n).Success? {
        var acc := ComponentsPrefix(parts, n - 1).value;
        var c := parts[n - 1].value;
        assert ComponentsPrefix(parts, n).value == acc + c;
        forall k ensures k in acc + c <==> exists i :: 0 <= i < n && k in parts[i].value {
          if k in acc {
            var i :| 0 <= i < n - 1 && k in parts[i].value;
            assert 0 <= i < n && k in parts[i].value;
          }
          if exists i :: 0 <= i < n && k in parts[i].value {
            var i :| 0 <= i < n && k in parts[i].value;
            if i < n - 1 {
              assert k in acc;
            }
          }
        }
        if forall i :: 0 <= i < n ==> Closed(parts[i].value) {
          ClosedUnion(acc, c);
        }
      }
    }
  }

  lemma {:induction false} ComponentsFailureSticks(parts: seq<Result<map<string, Schema>>>, i: nat, n: nat)
    requires i <= n <= |parts| && ComponentsPrefix(parts, i).Failure?
    ensures ComponentsPrefix(parts, n) == ComponentsPrefix(parts, i)
    decreases n
  {
    if n > i {
      ComponentsFailureSticks(parts, i, n - 1);
    }
  }

  /** The output and input body schemas an endpoint's operation refers to are keys of `schemas`. */
  predicate OperationBodiesIn(e: Endpoint, schemas: map<string, Schema>) {
    && (GetBodyOutputInfo(e).Success? && GetBodyOutputInfo(e).value.HasContent() ==> SchemaNameOf(GetBodyOutputInfo(e).value) in schemas)
    && (GetBodyInputInfo(e).Success? && GetBodyInputInfo(e).value.HasContent() ==> SchemaNameOf(GetBodyInputInfo(e).value) in schemas)
  }

  /** Both body types of an endpoint are Referable. */
  predicate BodiesReferable(e: Endpoint) {
    Referable(e.output.body) && Referable(e.input.body)
  }

  /**
   * The schemas of one endpoint hold the schema of each body that has
   * analyzed fields, and are closed when both body types are Referable.
   */
  lemma EndpointComponentsSpec(e: Endpoint)
    requires EndpointComponents(e).Success?
    ensures OperationBodiesIn(e, EndpointComponents(e).value)
    ensures BodiesReferable(e) ==> Closed(EndpointComponents(e).value)
  {
    var outInfo := GetBodyOutputInfo(e).value;
    var inInfo := GetBodyInputInfo(e).value;
    AnalyzedFieldsOf(e.output.body);
    AnalyzedFieldsOf(e.input.body);
    var outs := StructComponents(e.output.body.decl, outInfo).value;
    var ins := StructComponents(e.input.body.decl, inInfo).value;
    assert EndpointComponents(e).value == outs + ins;
    OwnSchemaPresent(e.output.body);
    OwnSchemaPresent(e.input.body);
    if BodiesReferable(e) {
      StructComponentsClosed(e.output.body.decl, outInfo);
      StructComponentsClosed(e.input.body.decl, inInfo);
      ClosedUnion(outs, ins);
    }
  }

  /** A struct with analyzed fields has its own schema among those GetComponentsOfStruct emits. */
  lemma OwnSchemaPresent(k: Kind)
    requires Analyze(k).Success?
    ensures k.Struct? && FieldsOf(Analyze(k).value, k.decl)
    ensures StructComponents(k.decl, Analyze(k).value).Success? && Analyze(k).value.HasContent() ==>
      SchemaNameOf(Analyze(k).value) in StructComponents(k.decl, Analyze(k).value).value
  {
    AnalyzedFieldsOf(k);
    AnalyzeDescribes(k);
    DescribedNamesDistinct(Analyze(k).value, k.decl);
    StructComponentsSpec(k.decl, Analyze(k).value, true);
  }

  /**
   * GetComponentsOfApi succeeds exactly when the schemas of every endpoint
   * can be built; then every body with analyzed fields has its schema among
   * the components, and when every body type is Referable no `$ref` of the
   * components dangles.
   */
  lemma ApiComponentsSpec(es: seq<Endpoint>)
    ensures ApiComponents(es).Success? <==> forall i :: 0 <= i < |es| ==> EndpointComponents(es[i]).Success?
    ensures ApiComponents(es).Success? ==> forall i :: 0 <= i < |es| ==> OperationBodiesIn(es[i], ApiComponents(es).value)
    ensures ApiComponents(es).Success? && (forall i :: 0 <= i < |es| ==> BodiesReferable(es[i])) ==>
      Closed(ApiComponents(es).value)
  {
    var parts := EndpointsComponents(es);
    ComponentsPrefixSpec(parts, |es|);
    assert forall i :: 0 <= i < |es| ==> parts[i] == EndpointComponents(es[i]);
    if ApiComponents(es).Success? {
      var r := ApiComponents(es).value;
      forall i | 0 <= i < |es| ensures OperationBodiesIn(es[i], r) && (BodiesReferable(es[i]) ==> Closed(parts[i].value)) {
        EndpointComponentsSpec(es[i]);
        assert parts[i].value.Keys <= r.Keys;
      }
    }
  }

  /** GetComponentsOfApi: the schemas of each endpoint's two body infos, output first, merged in turn. */
  method GetComponentsOfApi(es: seq<Endpoint>) returns (r: Result<map<string, map<string, Schema>>>)
    ensures ApiComponents(es).Success? ==> r == Success(map["schemas" := ApiComponents(es).value])
    ensures ApiComponents(es).Failure? ==> r == Failure(ApiComponents(es).error)
  {
    ghost var parts := EndpointsComponents(es);
    var schemas: map<string, Schema> := map[];
    for i := 0 to |es|
      invariant ComponentsPrefix(parts, i) == Success(schemas)
    {
      var e := es[i];
      var outInfo := GetBodyOutputInfo(e);
      if outInfo.Failure? {
        ComponentsFailureSticks(parts, i + 1, |es|);
        return Failure(outInfo.error);
      }
      var inInfo := GetBodyInputInfo(e);
      if inInfo.Failure? {
        ComponentsFailureSticks(parts, i + 1, |es|);
        return Failure(inInfo.error);
      }
      AnalyzedFieldsOf(e.output.body);
      AnalyzedFieldsOf(e.input.body);
      var outs := GetComponentsOfStruct(e.output.body.decl, outInfo.value);
      if outs.Failure? {
        ComponentsFailureSticks(parts, i + 1, |es|);
        return Failure(outs.error);
      }
      var merged := MergeSchemas(schemas, outs.value);
      var ins := GetComponentsOfStruct(e.input.body.decl, inInfo.value);
      if ins.Failure? {
        ComponentsFailureSticks(parts, i + 1, |es|);
        return Failure(ins.error);
      }
      schemas := MergeSchemas(merged, ins.value);
      assert schemas == ComponentsPrefix(parts, i).value + (outs.value + ins.value) by {
        MergeAssociative(ComponentsPrefix(parts, i).value, outs.value, ins.value);
      }
    }
    r := Success(map["schemas" := schemas]);
  }

  lemma MergeAssociative(a: map<string, Schema>, b: map<string, Schema>, c: map<string, Schema>)
    ensures (a + b) + c == a + (b + c)
  {
  }

  // ---------------------------------------------------------------------------
  // ToOpenApi3

  datatype Server = Server(url: string, description: string)

  /** The servers entry of one published server. */
  function ServerOf(s: ServerDecl): Server {
    Server(s.scheme + "://" + s.host + ":" + Itoa(s.port) + s.basePath, s.name + " - " + s.description)
  }

  /**
   * With no colon in the scheme, the host and the base path and a port that
   * is not negative, the scheme, the host and the port can be read back from
   * the URL: splitting it at its colons gives the scheme, "//" and the host,
   * and the port's digits followed by the base path.
   */
  lemma ServerUrlFields(s: ServerDecl)
    requires ':' !in s.scheme && ':' !in s.host && ':' !in s.basePath && s.port >= 0
    ensures Split(ServerOf(s).url, ':') == [s.scheme, "//" + s.host, NatToString(s.port) + s.basePath]
    ensures DecimalValue(NatToString(s.port)) == s.port
  {
    var digits := NatToString(s.port);
    var parts := [s.scheme, "//" + s.host, digits + s.basePath];
    assert ':' !in "//" + s.host;
    assert ':' !in digits + s.basePath by {
      forall c | c in digits + s.basePath ensures c != ':' {
        if c in digits {
          var i :| 0 <= i < |digits| && digits[i] == c;
          assert IsDigit(digits[i]);
        }
      }
    }
    assert Join(parts, ':') == ServerOf(s).url by {
      assert parts[1..] == ["//" + s.host, digits + s.basePath];
      assert parts[1..][1..] == [digits + s.basePath];
      assert Join(parts[1..][1..], ':') == digits + s.basePath;
      assert Join(parts[1..], ':') == "//" + s.host + [':'] + (digits + s.basePath);
      assert Itoa(s.port) == digits;
    }
    SplitJoin(parts, ':');
    DecimalOfNatToString(s.port);
  }

  datatype Document = Document(
    openapi: string,
    info: map<string, string>,
    servers: seq<Server>,
    paths: map<string, map<string, Operation>>,
    components: map<string, map<string, Schema>>)

  /** ToOpenApi3 */
  function DocumentOf(api: Api): Result<Document> {
    var paths :- Paths(api.endpoints);
    var schemas :- ApiComponents(api.endpoints);
    Success(Document("3.0.0",
                     map["title" := api.name, "description" := api.description, "version" := api.version],
                     seq(|api.servers|, i requires 0 <= i < |api.servers| => ServerOf(api.servers[i])),
                     paths,
                     map["schemas" := schemas]))
  }

  /** ToOpenApi3: the servers array filled in a loop, then the paths, then the components. */
  method ToOpenApi3(api: Api) returns (r: Result<Document>)
    ensures r == DocumentOf(api)
  {
    var servers := new Server[|api.servers|];
    for i := 0 to |api.servers|
      invariant forall j :: 0 <= j < i ==> servers[j] == ServerOf(api.servers[j])
    {
      servers[i] := ServerOf(api.servers[i]);
    }
    var paths := GetPaths(api.endpoints);
    if paths.Failure? {
      return Failure(paths.error);
    }
    var components := GetComponentsOfApi(api.endpoints);
    if components.Failure? {
      return Failure(components.error);
    }
    assert servers[..] == seq(|api.servers|, i requires 0 <= i < |api.servers| => ServerOf(api.servers[i]));
    r := Success(Document("3.0.0",
                          map["title" := api.name, "description" := api.description, "version" := api.version],
                          servers[..], paths.value, components.value));
  }

  /** The `$ref` texts of the schemas of a map. */
  ghost function RefTexts(schemas: map<string, Schema>): set<string> {
    set name | name in schemas :: RefText(name)
  }

  /** Every `$ref` of an operation's request body and responses is the text of one of `schemas`. */
  ghost predicate OperationRefsWithin(op: Operation, schemas: map<string, Schema>) {
    && (op.requestBody.Some? ==> forall t :: t in op.requestBody.value.content ==> op.requestBody.value.content[t] in RefTexts(schemas))
    && (forall c, t :: c in op.responses && t in op.responses[c].content ==> op.responses[c].content[t] in RefTexts(schemas))
  }

  /**
   * Every `$ref` of the document's operations points at one of its component
   * schemas; when every body type is Referable, so does every `$ref` inside
   * the components.
   */
  lemma DocumentRefsResolve(api: Api)
    requires DocumentOf(api).Success?
    ensures var doc := DocumentOf(api).value;
      forall path, m :: path in doc.paths && m in doc.paths[path] ==>
        OperationRefsWithin(doc.paths[path][m], doc.components["schemas"])
    ensures (forall i :: 0 <= i < |api.endpoints| ==> BodiesReferable(api.endpoints[i])) ==>
      Closed(DocumentOf(api).value.components["schemas"])
  {
    var es := api.endpoints;
    var routes := Routes(es);
    var ops := Operations(es);
    PathsPrefixSpec(routes, ops, |es|);
    ApiComponentsSpec(es);
    var paths := Paths(es).value;
    var schemas := ApiComponents(es).value;
    assert DocumentOf(api).value.paths == paths && DocumentOf(api).value.components["schemas"] == schemas;
    forall path, m | path in paths && m in paths[path] ensures OperationRefsWithin(paths[path][m], schemas) {
      var i := LastWithRoute(routes, Route(path, m));
      assert ops[i] == OperationOf(es[i]);
      OperationRefs(es[i], schemas);
    }
  }

  /** An operation's `$ref`s are within any schemas that hold its bodies'. */
  lemma OperationRefs(e: Endpoint, schemas: map<string, Schema>)
    requires OperationOf(e).Success? && OperationBodiesIn(e, schemas)
    ensures OperationRefsWithin(OperationOf(e).value, schemas)
  {
    OperationOfSpec(e);
    var outInfo := GetBodyOutputInfo(e).value;
    var inInfo := GetBodyInputInfo(e).value;
    if outInfo.HasContent() {
      assert RefText(SchemaNameOf(outInfo)) in RefTexts(schemas);
    }
    if inInfo.HasContent() {
      assert RefText(SchemaNameOf(inInfo)) in RefTexts(schemas);
    }
  }

  /** The last of the endpoints with the given route. */
  lemma LastWithRoute(routes: seq<Route>, route: Route) returns (i: nat)
    requires HasRoute(routes, |routes|, route)
    ensures i < |routes| && routes[i] == route && LastFor(routes, |routes|, i)
  {
    var k :| 0 <= k < |routes| && routes[k] == route;
    i := k;
    while exists j :: i < j < |routes| && routes[j] == route
      invariant i < |routes| && routes[i] == route
      decreases |routes| - i
    {
      var j :| i < j < |routes| && routes[j] == route;
      i := j;
    }
  }
}
