/**
 * The input side of pkg/apio/apio_input.go: the binding plans computed once
 * per endpoint from the declared facet types (flat path pattern, query
 * pattern, binding key sets), the serialisation of a typed input to an
 * `InputPayload`, and the parse of a payload back into a typed input.
 */
module Input {
  import opened Wrappers
  import opened Strings
  import opened Reflect
  import opened Analysis

  /** The wire form of a request: header, path and query maps, the concrete path, the body bytes. */
  datatype InputPayload = InputPayload(
    headers: map<string, seq<string>>,
    path: map<string, string>,
    pathStr: string,
    query: map<string, seq<string>>,
    body: Bytes)

  /** The four facet types of EndpointInput[HeadersType, PathType, QueryType, BodyType]. */
  datatype InputTypes = InputTypes(headers: Kind, path: Kind, query: Kind, body: Kind)

  /** A typed input: one value per facet. */
  datatype EndpointInput = EndpointInput(headers: Value, path: Value, query: Value, body: Value)

  /** The setter a binding holds: the declared field it writes, and that field's position. */
  datatype FieldSetter = FieldSetter(index: nat, field: FieldDecl)

  datatype HeaderBindings = HeaderBindings(bindings: map<string, FieldSetter>)

  datatype PathBindings = PathBindings(flatPath: string, bindings: map<string, FieldSetter>)

  datatype QueryBindings = QueryBindings(flatPath: string, bindings: map<string, FieldSetter>)

  /** GetHeaderInfo: the analysis of the header type; a type that does not analyze is a panic. */
  function GetHeaderInfo(types: InputTypes): Result<AnalyzedStruct> {
    AnalyzeOrPanic(types.headers, "failed to analyze headers")
  }

  /** GetPathInfo: the analysis of the path type. */
  function GetPathInfo(types: InputTypes): Result<AnalyzedStruct> {
    AnalyzeOrPanic(types.path, "failed to analyze path")
  }

  /** GetQueryInfo: the analysis of the query type. */
  function GetQueryInfo(types: InputTypes): Result<AnalyzedStruct> {
    AnalyzeOrPanic(types.query, "failed to analyze query")
  }

  // ---------------------------------------------------------------------------
  // Declared names

  /** No two non-blank fields among the first `n` share a declared name. */
  predicate NamesDistinct(d: StructDecl, n: nat)
    requires n <= |d.fields|
  {
    forall i, j :: 0 <= i < j < n && !IsBlank(d.fields[i]) && !IsBlank(d.fields[j]) ==>
      d.fields[i].name != d.fields[j].name
  }

  /**
   * `bindings` binds exactly the non-blank fields among the first `n`, each
   * under its declared name, to a setter for that field.
   */
  ghost predicate NameTable(d: StructDecl, n: nat, bindings: map<string, FieldSetter>)
    requires n <= |d.fields|
  {
    && (forall name :: name in bindings ==>
          && bindings[name].index < n
          && !IsBlank(d.fields[bindings[name].index])
          && d.fields[bindings[name].index].name == name
          && bindings[name].field == d.fields[bindings[name].index])
    && (forall i :: 0 <= i < n && !IsBlank(d.fields[i]) ==>
          d.fields[i].name in bindings && bindings[d.fields[i].name].index == i)
  }

  lemma NamesDistinctPrefix(d: StructDecl, n: nat)
    requires 0 < n <= |d.fields|
    ensures NamesDistinct(d, n) ==> NamesDistinct(d, n - 1)
  {
  }

  /** A blank field binds nothing. */
  lemma NameTableBlank(d: StructDecl, n: nat, b: map<string, FieldSetter>)
    requires 0 < n <= |d.fields| && IsBlank(d.fields[n - 1])
    requires NameTable(d, n - 1, b) && NamesDistinct(d, n - 1)
    ensures NameTable(d, n, b) && NamesDistinct(d, n)
  {
  }

  /** A named field whose name is already bound breaks distinctness. */
  lemma NameTableTaken(d: StructDecl, n: nat, b: map<string, FieldSetter>)
    requires 0 < n <= |d.fields| && !IsBlank(d.fields[n - 1])
    requires NameTable(d, n - 1, b)
    requires d.fields[n - 1].name in b
    ensures !NamesDistinct(d, n)
  {
    var j := b[d.fields[n - 1].name].index;
    assert d.fields[j].name == d.fields[n - 1].name;
  }

  /** A named field with a new name is bound to its own setter. */
  lemma NameTableFresh(d: StructDecl, n: nat, b: map<string, FieldSetter>)
    requires 0 < n <= |d.fields| && !IsBlank(d.fields[n - 1])
    requires NameTable(d, n - 1, b) && NamesDistinct(d, n - 1)
    requires d.fields[n - 1].name !in b
    ensures NamesDistinct(d, n)
    ensures NameTable(d, n, b[d.fields[n - 1].name := FieldSetter(n - 1, d.fields[n - 1])])
  {
    var f := d.fields[n - 1];
    forall i | 0 <= i < n - 1 && !IsBlank(d.fields[i]) ensures d.fields[i].name != f.name {
      assert d.fields[i].name in b;
    }
  }

  /** The declared names of the non-blank fields among the first `n`, in order. */
  function BoundNames(d: StructDecl, n: nat): seq<string>
    requires n <= |d.fields|
    decreases n
  {
    if n == 0 then []
    else BoundNames(d, n - 1) + (if IsBlank(d.fields[n - 1]) then [] else [d.fields[n - 1].name])
  }

  // ---------------------------------------------------------------------------
  // calcPathBindings

  /** One declared path field: a literal, a wildcard or a parameter. */
  datatype Segment = Literal(text: string) | Wildcard | Param(name: string)

  function SegmentOf(f: FieldDecl): Segment {
    if IsBlank(f) then
      if TagGet(f, "path") == "" then Wildcard else Literal(TrimPrefix(TagGet(f, "path"), "/"))
    else Param(f.name)
  }

  /** The path template: one segment per declared field, in order. */
  function Template(d: StructDecl, n: nat): seq<Segment>
    requires n <= |d.fields|
    decreases n
  {
    if n == 0 then [] else Template(d, n - 1) + [SegmentOf(d.fields[n - 1])]
  }

  /** A segment as it appears in the route pattern. */
  function PatternText(s: Segment): string {
    match s
    case Literal(t) => "/" + t
    case Wildcard => "/*"
    case Param(name) => "/:" + name
  }

  /** The route pattern of a template. */
  function RenderPattern(segs: seq<Segment>): string
    decreases |segs|
  {
    if segs == [] then "" else RenderPattern(segs[..|segs| - 1]) + PatternText(segs[|segs| - 1])
  }

  /** A template with every parameter replaced by its value; undefined for a wildcard. */
  function RenderValues(segs: seq<Segment>, values: map<string, string>): Option<string>
    decreases |segs|
  {
    if segs == [] then Some("")
    else
      match RenderValues(segs[..|segs| - 1], values)
      case None => None
      case Some(prefix) => RenderValue(prefix, segs[|segs| - 1], values)
  }

  /** A rendered prefix followed by one more segment. */
  function RenderValue(prefix: string, seg: Segment, values: map<string, string>): Option<string> {
    match seg
    case Literal(t) => Some(prefix + ("/" + t))
    case Wildcard => None
    case Param(name) => if name in values then Some(prefix + ("/" + values[name])) else None
  }

  /** calcPathBindings after its first `n` fields. */
  function PathPlanPrefix(d: StructDecl, n: nat): Result<PathBindings>
    requires n <= |d.fields|
    decreases n
  {
    if n == 0 then Success(PathBindings("", map[]))
    else
      match PathPlanPrefix(d, n - 1)
      case Failure(e) => Failure(e)
      case Success(acc) => PathPlanStep(acc, d.fields[n - 1], n - 1)
  }

  /** One iteration of the path-plan loop, for field `f` at position `index`. */
  function PathPlanStep(acc: PathBindings, f: FieldDecl, index: nat): Result<PathBindings> {
    var flatPath := acc.flatPath + PatternText(SegmentOf(f));
    if IsBlank(f) then Success(PathBindings(flatPath, acc.bindings))
    else if f.name in acc.bindings then Failure(DeclarationError("field '" + f.name + "' is already taken"))
    else Success(PathBindings(flatPath, acc.bindings[f.name := FieldSetter(index, f)]))
  }

  /** calcPathBindings */
  function PathPlan(k: Kind): Result<PathBindings> {
    if !k.Struct? then Failure(DeclarationError("PathType must be a struct"))
    else PathPlanPrefix(k.decl, |k.decl.fields|)
  }

  lemma {:induction false} PathPlanFailureSticks(d: StructDecl, n: nat, m: nat)
    requires n <= m <= |d.fields|
    requires PathPlanPrefix(d, n).Failure?
    ensures PathPlanPrefix(d, m) == PathPlanPrefix(d, n)
    decreases m - n
  {
    if n < m {
      PathPlanFailureSticks(d, n, m - 1);
    }
  }

  /**
   * The path plan succeeds exactly when the declared names are distinct, and
   * then binds every named field under its declared name.
   */
  lemma {:induction false} PathPlanBindings(d: StructDecl, n: nat)
    requires n <= |d.fields|
    ensures PathPlanPrefix(d, n).Success? <==> NamesDistinct(d, n)
    ensures PathPlanPrefix(d, n).Success? ==> NameTable(d, n, PathPlanPrefix(d, n).value.bindings)
    decreases n
  {
    if n > 0 {
      PathPlanBindings(d, n - 1);
      NamesDistinctPrefix(d, n);
      var r := PathPlanPrefix(d, n - 1);
      var f := d.fields[n - 1];
      if r.Success? {
        if IsBlank(f) {
          NameTableBlank(d, n, r.value.bindings);
        } else if f.name in r.value.bindings {
          NameTableTaken(d, n, r.value.bindings);
        } else {
          NameTableFresh(d, n, r.value.bindings);
        }
      }
    }
  }

  /** The route pattern of a template one segment longer. */
  lemma RenderPatternSnoc(p: seq<Segment>, seg: Segment)
    ensures RenderPattern(p + [seg]) == RenderPattern(p) + PatternText(seg)
  {
    assert (p + [seg])[..|p|] == p;
  }

  /** The flat path is the template rendered as a route pattern, in declaration order. */
  lemma {:induction false} PathPlanPattern(d: StructDecl, n: nat)
    requires n <= |d.fields|
    ensures PathPlanPrefix(d, n).Success? ==> PathPlanPrefix(d, n).value.flatPath == RenderPattern(Template(d, n))
    decreases n
  {
    if n > 0 && PathPlanPrefix(d, n).Success? {
      PathPlanPattern(d, n - 1);
      RenderPatternSnoc(Template(d, n - 1), SegmentOf(d.fields[n - 1]));
    }
  }

  /** calcPathBindings, as the loop the Go code runs. */
  method CalcPathBindings(k: Kind) returns (r: Result<PathBindings>)
    ensures r == PathPlan(k)
  {
    if !k.Struct? {
      return Failure(DeclarationError("PathType must be a struct"));
    }
    var d := k.decl;
    var flatPath := "";
    var bindings: map<string, FieldSetter> := map[];
    var alreadyTaken: set<string> := {};
    for i := 0 to |d.fields|
      invariant PathPlanPrefix(d, i) == Success(PathBindings(flatPath, bindings))
      invariant alreadyTaken == bindings.Keys
    {
      var field := d.fields[i];
      if field.name == Blank {
        var pathTag := TagGet(field, "path");
        if pathTag == "" {
          flatPath := flatPath + "/*";
        } else {
          flatPath := flatPath + ("/" + TrimPrefix(pathTag, "/"));
        }
      } else {
        if field.name in alreadyTaken {
          PathPlanFailureSticks(d, i + 1, |d.fields|);
          return Failure(DeclarationError("field '" + field.name + "' is already taken"));
        }
        alreadyTaken := alreadyTaken + {field.name};
        flatPath := flatPath + ("/:" + field.name);
        bindings := bindings[field.name := FieldSetter(i, field)];
      }
    }
    return Success(PathBindings(flatPath, bindings));
  }

  // ---------------------------------------------------------------------------
  // calcQueryBindings

  /** The query pattern of a list of parameter names: `?a=..&b=..`, or empty. */
  function QueryPattern(names: seq<string>): string {
    if names == [] then "" else "?" + Join(seq(|names|, i requires 0 <= i < |names| => names[i] + "=.."), '&')
  }

  /** calcQueryBindings after its first `n` fields. */
  function QueryPlanPrefix(d: StructDecl, n: nat): Result<QueryBindings>
    requires n <= |d.fields|
    decreases n
  {
    if n == 0 then Success(QueryBindings("", map[]))
    else
      match QueryPlanPrefix(d, n - 1)
      case Failure(e) => Failure(e)
      case Success(acc) => QueryPlanStep(acc, d.fields[n - 1], n - 1)
  }

  /** One iteration of the query-plan loop, for field `f` at position `index`. */
  function QueryPlanStep(acc: QueryBindings, f: FieldDecl, index: nat): Result<QueryBindings> {
    if IsBlank(f) then Success(acc)
    else if f.name in acc.bindings then
      Failure(DeclarationError("field '" + f.name + "' is already taken"))
    else
      var separator := if |acc.bindings| == 0 then "?" else "&";
      Success(QueryBindings(acc.flatPath + separator + f.name + "=..", acc.bindings[f.name := FieldSetter(index, f)]))
  }

  /** calcQueryBindings */
  function QueryPlan(k: Kind): Result<QueryBindings> {
    if !k.Struct? then Failure(DeclarationError("QueryType must be a struct"))
    else QueryPlanPrefix(k.decl, |k.decl.fields|)
  }

  lemma {:induction false} QueryPlanFailureSticks(d: StructDecl, n: nat, m: nat)
    requires n <= m <= |d.fields|
    requires QueryPlanPrefix(d, n).Failure?
    ensures QueryPlanPrefix(d, m) == QueryPlanPrefix(d, n)
    decreases m - n
  {
    if n < m {
      QueryPlanFailureSticks(d, n, m - 1);
    }
  }

  /** Appending a name to the query pattern adds `?name=..` first and `&name=..` later. */
  lemma QueryPatternAppend(names: seq<string>, name: string)
    ensures QueryPattern(names + [name]) == QueryPattern(names) + (if names == [] then "?" else "&") + name + "=.."
  {
    var ps := seq(|names|, i requires 0 <= i < |names| => names[i] + "=..");
    var ps' := seq(|names + [name]|, i requires 0 <= i < |names + [name]| => (names + [name])[i] + "=..");
    assert ps' == ps + [name + "=.."];
    JoinAppend(ps, name + "=..", '&');
  }

  /**
   * The query plan succeeds exactly when the declared names are distinct, and
   * then binds every named field under its declared name.
   */
  lemma {:induction false} QueryPlanBindings(d: StructDecl, n: nat)
    requires n <= |d.fields|
    ensures QueryPlanPrefix(d, n).Success? <==> NamesDistinct(d, n)
    ensures QueryPlanPrefix(d, n).Success? ==> NameTable(d, n, QueryPlanPrefix(d, n).value.bindings)
    decreases n
  {
    if n > 0 {
      QueryPlanBindings(d, n - 1);
      NamesDistinctPrefix(d, n);
      var r := QueryPlanPrefix(d, n - 1);
      var f := d.fields[n - 1];
      if r.Success? {
        if IsBlank(f) {
          NameTableBlank(d, n, r.value.bindings);
        } else if f.name in r.value.bindings {
          NameTableTaken(d, n, r.value.bindings);
        } else {
          NameTableFresh(d, n, r.value.bindings);
        }
      }
    }
  }

  /**
   * The query pattern is `?` before the first bound name and `&` before each
   * later one; the plan binds nothing exactly when no field is bound.
   */
  lemma {:induction false} QueryPlanPattern(d: StructDecl, n: nat)
    requires n <= |d.fields|
    ensures QueryPlanPrefix(d, n).Success? ==>
      && QueryPlanPrefix(d, n).value.flatPath == QueryPattern(BoundNames(d, n))
      && (QueryPlanPrefix(d, n).value.bindings == map[] <==> BoundNames(d, n) == [])
    decreases n
  {
    if n > 0 {
      QueryPlanPattern(d, n - 1);
      var r := QueryPlanPrefix(d, n - 1);
      var f := d.fields[n - 1];
      if r.Success? && !IsBlank(f) && f.name !in r.value.bindings {
        QueryPatternAppend(BoundNames(d, n - 1), f.name);
        assert |r.value.bindings| == 0 <==> r.value.bindings == map[];
        assert f.name in QueryPlanPrefix(d, n).value.bindings;
      } else if IsBlank(f) {
        assert BoundNames(d, n) == BoundNames(d, n - 1);
      }
    }
  }

  /** The query pattern is empty exactly when there is no bound field. */
  lemma QueryPatternEmpty(names: seq<string>)
    ensures QueryPattern(names) == "" <==> names == []
    ensures names != [] ==> QueryPattern(names)[0] == '?'
  {
  }

  /** calcQueryBindings, as the loop the Go code runs. */
  method CalcQueryBindings(k: Kind) returns (r: Result<QueryBindings>)
    ensures r == QueryPlan(k)
  {
    if !k.Struct? {
      return Failure(DeclarationError("QueryType must be a struct"));
    }
    var d := k.decl;
    var flatPath := "";
    var bindings: map<string, FieldSetter> := map[];
    var alreadyTaken: set<string> := {};
    for i := 0 to |d.fields|
      invariant QueryPlanPrefix(d, i) == Success(QueryBindings(flatPath, bindings))
      invariant alreadyTaken == bindings.Keys
    {
      var field := d.fields[i];
      if field.name != Blank {
        if field.name in alreadyTaken {
          QueryPlanFailureSticks(d, i + 1, |d.fields|);
          return Failure(DeclarationError("field '" + field.name + "' is already taken"));
        }
        var isFirst := |bindings| == 0;
        var separator := "&";
        if isFirst {
          separator := "?";
        }
        alreadyTaken := alreadyTaken + {field.name};
        flatPath := flatPath + separator + field.name + "=..";
        bindings := bindings[field.name := FieldSetter(i, field)];
      }
    }
    return Success(QueryBindings(flatPath, bindings));
  }

  // ---------------------------------------------------------------------------
  // calcHeaderBindings

  /** A field the header plan binds: non-blank, and not renamed to `_` by its tag. */
  predicate HeaderBound(d: StructDecl, i: nat)
    requires i < |d.fields|
  {
    !IsBlank(d.fields[i]) && AnalyzeField(d, i).name != Blank
  }

  /** calcHeaderBindings over the first `n` analyzed fields. */
  function HeaderPlanPrefix(fs: seq<AnalyzedField>, n: nat): Result<HeaderBindings>
    requires n <= |fs|
    decreases n
  {
    if n == 0 then Success(HeaderBindings(map[]))
    else
      match HeaderPlanPrefix(fs, n - 1)
      case Failure(e) => Failure(e)
      case Success(acc) => HeaderPlanStep(acc, fs[n - 1])
  }

  /** One iteration of the header-plan loop; a field named `_` by its tag is skipped. */
  function HeaderPlanStep(acc: HeaderBindings, f: AnalyzedField): Result<HeaderBindings> {
    if f.name == Blank then Success(acc)
    else if f.lkName in acc.bindings then Failure(DeclarationError("header '" + f.lkName + "' is already taken"))
    else Success(HeaderBindings(acc.bindings[f.lkName := FieldSetter(f.index, f.structField)]))
  }

  /** calcHeaderBindings */
  function HeaderPlan(k: Kind): Result<HeaderBindings> {
    match Analyze(k)
    case Failure(e) => Failure(e)
    case Success(info) => HeaderPlanPrefix(info.fields, |info.fields|)
  }

  lemma {:induction false} HeaderPlanFailureSticks(fs: seq<AnalyzedField>, n: nat, m: nat)
    requires n <= m <= |fs|
    requires HeaderPlanPrefix(fs, n).Failure?
    ensures HeaderPlanPrefix(fs, m) == HeaderPlanPrefix(fs, n)
    decreases m - n
  {
    if n < m {
      HeaderPlanFailureSticks(fs, n, m - 1);
    }
  }

  /**
   * Over fields with distinct lookup keys the header plan never reports a
   * repeat, and binds each field not named `_` under its lookup key.
   */
  lemma {:induction false} HeaderPlanPrefixSpec(fs: seq<AnalyzedField>, n: nat)
    requires n <= |fs|
    requires DistinctLK(fs)
    ensures HeaderPlanPrefix(fs, n).Success?
    ensures var b := HeaderPlanPrefix(fs, n).value.bindings;
      && (forall key :: key in b ==> exists j :: 0 <= j < n && fs[j].name != Blank && fs[j].lkName == key)
      && (forall j :: 0 <= j < n && fs[j].name != Blank ==>
            fs[j].lkName in b && b[fs[j].lkName] == FieldSetter(fs[j].index, fs[j].structField))
    decreases n
  {
    if n > 0 {
      HeaderPlanPrefixSpec(fs, n - 1);
    }
  }

  /**
   * `b` binds exactly the header fields of `d`, each under its lookup key (which
   * is already lower case), to a setter for that field, and the analysis finds
   * the same field under that key.
   */
  ghost predicate HeaderTable(d: StructDecl, info: AnalyzedStruct, b: map<string, FieldSetter>) {
    && (forall name :: name in b ==>
          && b[name].index < |d.fields|
          && HeaderBound(d, b[name].index)
          && AnalyzeField(d, b[name].index).lkName == name
          && b[name].field == d.fields[b[name].index]
          && ToLower(name) == name
          && name in info.fieldsByLKName && info.fieldsByLKName[name].index == b[name].index)
    && (forall i :: 0 <= i < |d.fields| && HeaderBound(d, i) ==>
          AnalyzeField(d, i).lkName in b && b[AnalyzeField(d, i).lkName].index == i)
  }

  /** The header plan fails exactly when the analysis does, and otherwise is a HeaderTable. */
  lemma HeaderPlanTable(k: Kind)
    ensures HeaderPlan(k).Success? <==> Analyze(k).Success?
    ensures HeaderPlan(k).Success? ==>
      k.Struct? && HeaderTable(k.decl, Analyze(k).value, HeaderPlan(k).value.bindings)
  {
    AnalyzeDescribes(k);
    if Analyze(k).Success? {
      var d := k.decl;
      var info := Analyze(k).value;
      var fs := info.fields;
      HeaderPlanPrefixSpec(fs, |fs|);
      var b := HeaderPlan(k).value.bindings;
      BoundFieldsComplete(d, |d.fields|);
      forall name | name in b
        ensures && b[name].index < |d.fields|
                && HeaderBound(d, b[name].index)
                && AnalyzeField(d, b[name].index).lkName == name
                && b[name].field == d.fields[b[name].index]
                && ToLower(name) == name
                && name in info.fieldsByLKName && info.fieldsByLKName[name].index == b[name].index
      {
        var j :| 0 <= j < |fs| && fs[j].name != Blank && fs[j].lkName == name;
        assert fs[j] in fs;
        DescribedField(info, d, fs[j]);
        KebabNoUpper(fs[j].name);
        ToLowerOfNoUpper(name);
      }
      forall i | 0 <= i < |d.fields| && HeaderBound(d, i)
        ensures AnalyzeField(d, i).lkName in b && b[AnalyzeField(d, i).lkName].index == i
      {
        assert AnalyzeField(d, i) in fs;
        var j :| 0 <= j < |fs| && fs[j] == AnalyzeField(d, i);
      }
    }
  }

  /** calcHeaderBindings, as the loop the Go code runs. */
  method CalcHeaderBindings(k: Kind) returns (r: Result<HeaderBindings>)
    ensures r == HeaderPlan(k)
  {
    var structInfo :- Analyze(k);
    var fields := structInfo.fields;
    var bindings: map<string, FieldSetter> := map[];
    var alreadyTaken: set<string> := {};
    for i := 0 to |fields|
      invariant HeaderPlanPrefix(fields, i) == Success(HeaderBindings(bindings))
      invariant alreadyTaken == bindings.Keys
    {
      var field := fields[i];
      if field.name != Blank {
        var key := field.lkName;
        if key in alreadyTaken {
          HeaderPlanFailureSticks(fields, i + 1, |fields|);
          return Failure(DeclarationError("header '" + key + "' is already taken"));
        }
        alreadyTaken := alreadyTaken + {key};
        bindings := bindings[key := FieldSetter(field.index, field.structField)];
      }
    }
    return Success(HeaderBindings(bindings));
  }

  // ---------------------------------------------------------------------------
  // ToPayload

  /** serializeValue's post-processing: at most one leading and one trailing quote are removed. */
  function Unquote(s: string): (r: string)
    ensures r == s || "\"" + r == s || r + "\"" == s || "\"" + r + "\"" == s
  {
    var t := TrimPrefix(s, "\"");
    var r := TrimSuffix(t, "\"");
    assert "\"" + (r + "\"") == "\"" + r + "\"";
    r
  }

  /** Exactly what Unquote removes: a leading quote if there is one, then a trailing quote if one is left. */
  lemma UnquoteExact(s: string)
    ensures var a := if |s| > 0 && s[0] == '"' then 1 else 0;
      var b := if |s| > a && s[|s| - 1] == '"' then 1 else 0;
      Unquote(s) == s[a..|s| - b]
  {
  }

  /** serializeValue: the JSON text of a field value, unquoted. */
  function Serialize(codec: Codec, v: Value): Result<string> {
    match codec.marshal(v)
    case None => Failure(InternalError("failed to marshal parameter"))
    case Some(s) => Success(Unquote(s))
  }

  function MarshalBody(codec: Codec, v: Value): Result<Bytes> {
    match codec.marshalBody(v)
    case None => Failure(InternalError("failed to marshal body"))
    case Some(b) => Success(b)
  }

  /** Every analyzed field indexes into a value of the analyzed type. */
  lemma AnalyzedIndices(k: Kind)
    requires Analyze(k).Success?
    ensures k.Struct?
    ensures forall j :: 0 <= j < |Analyze(k).value.fields| ==> Analyze(k).value.fields[j].index < |k.decl.fields|
  {
    AnalyzeDescribes(k);
    var fs := Analyze(k).value.fields;
    BoundFieldsSound(k.decl, |k.decl.fields|);
    assert forall j :: 0 <= j < |fs| ==> fs[j] in fs;
  }

  /** The header loop of ToPayload over the first `n` analyzed fields. */
  function HeadersPayloadPrefix(codec: Codec, fs: seq<AnalyzedField>, items: seq<Value>, n: nat): Result<map<string, seq<string>>>
    requires n <= |fs|
    requires forall j :: 0 <= j < |fs| ==> fs[j].index < |items|
    decreases n
  {
    if n == 0 then Success(map[])
    else
      match HeadersPayloadPrefix(codec, fs, items, n - 1)
      case Failure(e) => Failure(e)
      case Success(acc) => HeadersPayloadStep(codec, fs[n - 1], items, acc)
  }

  /** One iteration of the header loop of ToPayload: a nil pointer is skipped. */
  function HeadersPayloadStep(codec: Codec, field: AnalyzedField, items: seq<Value>, acc: map<string, seq<string>>): Result<map<string, seq<string>>>
    requires field.index < |items|
  {
    if field.name == Blank then Success(acc)
    else
      var valuePtr := GetPtr(items, field);
      if valuePtr.None? && field.IsRequired() then
        Failure(InternalError("missing required header parameter '" + field.name + "'"))
      else if valuePtr.None? then Success(acc)
      else
        match Serialize(codec, valuePtr.value)
        case Failure(e) => Failure(e)
        case Success(s) => Success(acc[field.lkName := [s]])
  }

  /** The concrete path and the path map built so far. */
  datatype PathPart = PathPart(pathStr: string, path: map<string, string>)

  /** The path loop of ToPayload over the first `n` declared fields. */
  function PathPayloadPrefix(codec: Codec, d: StructDecl, items: seq<Value>, n: nat): Result<PathPart>
    requires n <= |d.fields| == |items|
    decreases n
  {
    if n == 0 then Success(PathPart("", map[]))
    else
      match PathPayloadPrefix(codec, d, items, n - 1)
      case Failure(e) => Failure(e)
      case Success(acc) => PathPayloadStep(codec, d.fields[n - 1], items[n - 1], acc)
  }

  /** One iteration of the path loop of ToPayload: a tagged blank field contributes its literal. */
  function PathPayloadStep(codec: Codec, field: FieldDecl, value: Value, acc: PathPart): Result<PathPart> {
    if IsBlank(field) then
      var pathTag := TagGet(field, "path");
      if pathTag == "" then Failure(DeclarationError("wildcard path parameters not yet supported, field: " + field.name))
      else Success(acc.(pathStr := acc.pathStr + ("/" + TrimPrefix(pathTag, "/"))))
    else
      match Serialize(codec, value)
      case Failure(e) => Failure(e)
      case Success(s) => Success(PathPart(acc.pathStr + ("/" + s), acc.path[field.name := s]))
  }

  /** The query loop of ToPayload over the first `n` declared fields. */
  function QueryPayloadPrefix(codec: Codec, d: StructDecl, items: seq<Value>, n: nat): Result<map<string, seq<string>>>
    requires n <= |d.fields| == |items|
    decreases n
  {
    if n == 0 then Success(map[])
    else
      match QueryPayloadPrefix(codec, d, items, n - 1)
      case Failure(e) => Failure(e)
      case Success(acc) => QueryPayloadStep(codec, d.fields[n - 1], items[n - 1], acc)
  }

  /** One iteration of the query loop: a nil pointer and a blank field are skipped. */
  function QueryPayloadStep(codec: Codec, field: FieldDecl, value: Value, acc: map<string, seq<string>>): Result<map<string, seq<string>>> {
    if field.kind.Ptr? && value == Nil then Success(acc)
    else if IsBlank(field) then Success(acc)
    else
      match Serialize(codec, value)
      case Failure(e) => Failure(e)
      case Success(s) => Success(acc[EffectiveName(field) := [s]])
  }

  /** The facet values have the shape their struct types demand. */
  predicate InputShaped(types: InputTypes, e: EndpointInput) {
    Shaped(e.headers, types.headers) && Shaped(e.path, types.path) && Shaped(e.query, types.query)
  }

  /** ToPayload: the body, then the headers, the path and the query, each failing early. */
  function PayloadOf(codec: Codec, types: InputTypes, e: EndpointInput): Result<InputPayload>
    requires InputShaped(types, e)
  {
    var body :- MarshalBody(codec, e.body);
    var info :- Analyze(types.headers);
    AnalyzedIndices(types.headers);
    var headers :- HeadersPayloadPrefix(codec, info.fields, e.headers.items, |info.fields|);
    if !types.path.Struct? then Failure(DeclarationError("PathType must be a struct"))
    else
      var pp :- PathPayloadPrefix(codec, types.path.decl, e.path.items, |types.path.decl.fields|);
      if !types.query.Struct? then Failure(DeclarationError("QueryType must be a struct"))
      else
        var query :- QueryPayloadPrefix(codec, types.query.decl, e.query.items, |types.query.decl.fields|);
        Success(InputPayload(headers, pp.path, pp.pathStr, query, body))
  }

  lemma {:induction false} HeadersPayloadFailureSticks(codec: Codec, fs: seq<AnalyzedField>, items: seq<Value>, n: nat, m: nat)
    requires n <= m <= |fs|
    requires forall j :: 0 <= j < |fs| ==> fs[j].index < |items|
    requires HeadersPayloadPrefix(codec, fs, items, n).Failure?
    ensures HeadersPayloadPrefix(codec, fs, items, m) == HeadersPayloadPrefix(codec, fs, items, n)
    decreases m - n
  {
    if n < m {
      HeadersPayloadFailureSticks(codec, fs, items, n, m - 1);
    }
  }

  lemma {:induction false} PathPayloadFailureSticks(codec: Codec, d: StructDecl, items: seq<Value>, n: nat, m: nat)
    requires n <= m <= |d.fields| == |items|
    requires PathPayloadPrefix(codec, d, items, n).Failure?
    ensures PathPayloadPrefix(codec, d, items, m) == PathPayloadPrefix(codec, d, items, n)
    decreases m - n
  {
    if n < m {
      PathPayloadFailureSticks(codec, d, items, n, m - 1);
    }
  }

  lemma {:induction false} QueryPayloadFailureSticks(codec: Codec, d: StructDecl, items: seq<Value>, n: nat, m: nat)
    requires n <= m <= |d.fields| == |items|
    requires QueryPayloadPrefix(codec, d, items, n).Failure?
    ensures QueryPayloadPrefix(codec, d, items, m) == QueryPayloadPrefix(codec, d, items, n)
    decreases m - n
  {
    if n < m {
      QueryPayloadFailureSticks(codec, d, items, n, m - 1);
    }
  }

  /** The header loop of ToPayload. */
  method SerializeHeaders(codec: Codec, fields: seq<AnalyzedField>, hitems: seq<Value>) returns (r: Result<map<string, seq<string>>>)
    requires forall j :: 0 <= j < |fields| ==> fields[j].index < |hitems|
    ensures r == HeadersPayloadPrefix(codec, fields, hitems, |fields|)
  {
    var headers: map<string, seq<string>> := map[];
    for i := 0 to |fields|
      invariant HeadersPayloadPrefix(codec, fields, hitems, i) == Success(headers)
    {
      var field := fields[i];
      if field.name != Blank {
        var key := field.lkName;
        var valuePtr := GetPtr(hitems, field);
        if valuePtr.None? && field.IsRequired() {
          // GetPtr yields nil only for a pointer field
          assert false;
          return Failure(InternalError("missing required header parameter '" + field.name + "'"));
        }
        if valuePtr.None? {
          continue;
        }
        var valueSerialized := Serialize(codec, valuePtr.value);
        if valueSerialized.Failure? {
          assert HeadersPayloadStep(codec, field, hitems, headers) == Failure(valueSerialized.error);
          HeadersPayloadFailureSticks(codec, fields, hitems, i + 1, |fields|);
          return Failure(valueSerialized.error);
        }
        assert HeadersPayloadStep(codec, field, hitems, headers) == Success(headers[key := [valueSerialized.value]]);
        headers := headers[key := [valueSerialized.value]];
      }
    }
    return Success(headers);
  }

  /** The path loop of ToPayload. */
  method SerializePath(codec: Codec, pathT: StructDecl, pitems: seq<Value>) returns (r: Result<PathPart>)
    requires |pathT.fields| == |pitems|
    ensures r == PathPayloadPrefix(codec, pathT, pitems, |pathT.fields|)
  {
    var path: map<string, string> := map[];
    var pathStr := "";
    for i := 0 to |pathT.fields|
      invariant PathPayloadPrefix(codec, pathT, pitems, i) == Success(PathPart(pathStr, path))
    {
      var field := pathT.fields[i];
      if field.name == Blank {
        var pathTag := TagGet(field, "path");
        if pathTag == "" {
          PathPayloadFailureSticks(codec, pathT, pitems, i + 1, |pathT.fields|);
          return Failure(DeclarationError("wildcard path parameters not yet supported, field: " + field.name));
        } else {
          pathStr := pathStr + ("/" + TrimPrefix(pathTag, "/"));
        }
      } else {
        var valueSerialized := Serialize(codec, pitems[i]);
        if valueSerialized.Failure? {
          PathPayloadFailureSticks(codec, pathT, pitems, i + 1, |pathT.fields|);
          return Failure(valueSerialized.error);
        }
        pathStr := pathStr + ("/" + valueSerialized.value);
        path := path[field.name := valueSerialized.value];
      }
    }
    return Success(PathPart(pathStr, path));
  }

  /** The query loop of ToPayload. */
  method SerializeQuery(codec: Codec, queryT: StructDecl, qitems: seq<Value>) returns (r: Result<map<string, seq<string>>>)
    requires |queryT.fields| == |qitems|
    ensures r == QueryPayloadPrefix(codec, queryT, qitems, |queryT.fields|)
  {
    var query: map<string, seq<string>> := map[];
    for i := 0 to |queryT.fields|
      invariant QueryPayloadPrefix(codec, queryT, qitems, i) == Success(query)
    {
      var tpe := queryT.fields[i].kind;
      var value := qitems[i];
      if tpe.Ptr? && value == Nil {
        continue;
      }
      var field := queryT.fields[i];
      if field.name != Blank {
        var name := field.name;
        var tag := TagLookup(field, "name");
        if tag.Some? {
          name := tag.value;
        }
        var valueSerialized := Serialize(codec, value);
        if valueSerialized.Failure? {
          QueryPayloadFailureSticks(codec, queryT, qitems, i + 1, |queryT.fields|);
          return Failure(valueSerialized.error);
        }
        query := query[name := [valueSerialized.value]];
      }
    }
    return Success(query);
  }

  /** ToPayload: the body, then the three loops in turn. */
  method ToPayload(codec: Codec, types: InputTypes, e: EndpointInput) returns (r: Result<InputPayload>)
    requires InputShaped(types, e)
    ensures r == PayloadOf(codec, types, e)
  {
    var bodyJsonBytes :- MarshalBody(codec, e.body);
    var headersInfo :- Analyze(types.headers);
    AnalyzedIndices(types.headers);
    var headers :- SerializeHeaders(codec, headersInfo.fields, e.headers.items);
    if !types.path.Struct? {
      return Failure(DeclarationError("PathType must be a struct"));
    }
    var pp :- SerializePath(codec, types.path.decl, e.path.items);
    if !types.query.Struct? {
      return Failure(DeclarationError("QueryType must be a struct"));
    }
    var query :- SerializeQuery(codec, types.query.decl, e.query.items);
    return Success(InputPayload(headers, pp.path, pp.pathStr, query, bodyJsonBytes));
  }

  /** The header entry of one field: its serialised value when set, nothing when nil. */
  predicate HeaderEntry(codec: Codec, items: seq<Value>, h: map<string, seq<string>>, f: AnalyzedField)
    requires f.index < |items|
  {
    && (f.lkName in h <==> GetPtr(items, f).Some?)
    && (GetPtr(items, f).Some? ==>
          Serialize(codec, GetPtr(items, f).value).Success?
          && h[f.lkName] == [Serialize(codec, GetPtr(items, f).value).value])
  }

  /** One step of the header loop of ToPayload, when it succeeds. */
  lemma HeadersPayloadUnfold(codec: Codec, fs: seq<AnalyzedField>, items: seq<Value>, n: nat)
    requires 0 < n <= |fs|
    requires forall j :: 0 <= j < |fs| ==> fs[j].index < |items|
    requires HeadersPayloadPrefix(codec, fs, items, n).Success?
    ensures HeadersPayloadPrefix(codec, fs, items, n - 1).Success?
    ensures var acc := HeadersPayloadPrefix(codec, fs, items, n - 1).value;
      var h := HeadersPayloadPrefix(codec, fs, items, n).value;
      var f := fs[n - 1];
      if f.name != Blank && GetPtr(items, f).Some? then
        Serialize(codec, GetPtr(items, f).value).Success? && h == acc[f.lkName := [Serialize(codec, GetPtr(items, f).value).value]]
      else h == acc
  {
  }

  /**
   * Headers are keyed by lookup key with exactly one value each: the
   * serialised value of every field that is set, and nothing for a nil one.
   */
  lemma {:induction false} HeadersPayloadSpec(codec: Codec, fs: seq<AnalyzedField>, items: seq<Value>, n: nat)
    requires n <= |fs|
    requires forall j :: 0 <= j < |fs| ==> fs[j].index < |items|
    requires DistinctLK(fs)
    ensures HeadersPayloadPrefix(codec, fs, items, n).Success? ==>
      var h := HeadersPayloadPrefix(codec, fs, items, n).value;
      && (forall key :: key in h ==> exists j :: 0 <= j < n && fs[j].name != Blank && fs[j].lkName == key)
      && (forall j :: 0 <= j < n && fs[j].name != Blank ==> HeaderEntry(codec, items, h, fs[j]))
    decreases n
  {
    if n > 0 && HeadersPayloadPrefix(codec, fs, items, n).Success? {
      HeadersPayloadSpec(codec, fs, items, n - 1);
      HeadersPayloadUnfold(codec, fs, items, n);
      {
        var acc := HeadersPayloadPrefix(codec, fs, items, n - 1).value;
        var h := HeadersPayloadPrefix(codec, fs, items, n).value;
        var f := fs[n - 1];
        if f.name != Blank && GetPtr(items, f).Some? {
          var s := Serialize(codec, GetPtr(items, f).value).value;
          assert h == acc[f.lkName := [s]];
          forall j | 0 <= j < n - 1 && fs[j].name != Blank ensures HeaderEntry(codec, items, h, fs[j]) {
            assert fs[j].lkName != f.lkName;
            assert HeaderEntry(codec, items, acc, fs[j]);
          }
          assert HeaderEntry(codec, items, h, f);
        } else {
          assert h == acc;
        }
        forall key | key in h ensures exists j :: 0 <= j < n && fs[j].name != Blank && fs[j].lkName == key {
          if key in acc {
            var j :| 0 <= j < n - 1 && fs[j].name != Blank && fs[j].lkName == key;
            assert 0 <= j < n && fs[j].name != Blank && fs[j].lkName == key;
          } else {
            assert fs[n - 1].name != Blank && fs[n - 1].lkName == key;
          }
        }
      }
    }
  }

  /** No two non-blank fields among the first `n` share a public name. */
  predicate EffectiveNamesDistinct(d: StructDecl, n: nat)
    requires n <= |d.fields|
  {
    forall i, j :: 0 <= i < j < n && !IsBlank(d.fields[i]) && !IsBlank(d.fields[j]) ==>
      EffectiveName(d.fields[i]) != EffectiveName(d.fields[j])
  }

  /** A query field that holds nothing: a nil pointer. */
  predicate Absent(f: FieldDecl, v: Value) {
    f.kind.Ptr? && v == Nil
  }

  lemma EffectiveNamesDistinctPrefix(d: StructDecl, n: nat)
    requires 0 < n <= |d.fields|
    ensures EffectiveNamesDistinct(d, n) ==> EffectiveNamesDistinct(d, n - 1)
  {
  }

  /** One step of the query loop, when it succeeds. */
  lemma QueryPayloadUnfold(codec: Codec, d: StructDecl, items: seq<Value>, n: nat)
    requires 0 < n <= |d.fields| == |items|
    requires QueryPayloadPrefix(codec, d, items, n).Success?
    ensures QueryPayloadPrefix(codec, d, items, n - 1).Success?
    ensures var acc := QueryPayloadPrefix(codec, d, items, n - 1).value;
      var cur := QueryPayloadPrefix(codec, d, items, n).value;
      var f := d.fields[n - 1];
      && (Absent(f, items[n - 1]) || IsBlank(f) ==> cur == acc)
      && (!Absent(f, items[n - 1]) && !IsBlank(f) ==>
            Serialize(codec, items[n - 1]).Success? && cur == acc[EffectiveName(f) := [Serialize(codec, items[n - 1]).value]])
  {
  }

  /**
   * Query entries are keyed by public name (the name tag, else the declared
   * name), with exactly one value each.
   */
  lemma {:induction false} QueryPayloadKeys(codec: Codec, d: StructDecl, items: seq<Value>, n: nat)
    requires n <= |d.fields| == |items|
    ensures QueryPayloadPrefix(codec, d, items, n).Success? ==>
      var q := QueryPayloadPrefix(codec, d, items, n).value;
      forall key :: key in q ==>
        |q[key]| == 1
        && exists i :: 0 <= i < n && !IsBlank(d.fields[i]) && !Absent(d.fields[i], items[i]) && EffectiveName(d.fields[i]) == key
    decreases n
  {
    if n > 0 && QueryPayloadPrefix(codec, d, items, n).Success? {
      QueryPayloadKeys(codec, d, items, n - 1);
      QueryPayloadUnfold(codec, d, items, n);
      var acc := QueryPayloadPrefix(codec, d, items, n - 1).value;
      var q := QueryPayloadPrefix(codec, d, items, n).value;
      var f := d.fields[n - 1];
      forall key | key in q
        ensures |q[key]| == 1
        ensures exists i :: 0 <= i < n && !IsBlank(d.fields[i]) && !Absent(d.fields[i], items[i]) && EffectiveName(d.fields[i]) == key
      {
        if !Absent(f, items[n - 1]) && !IsBlank(f) && key == EffectiveName(f) {
          assert 0 <= n - 1 < n;
        } else {
          assert key in acc && q[key] == acc[key];
          var i :| 0 <= i < n - 1 && !IsBlank(d.fields[i]) && !Absent(d.fields[i], items[i]) && EffectiveName(d.fields[i]) == key;
          assert 0 <= i < n;
        }
      }
    }
  }

  /** Every non-nil named query field has an entry under its public name. */
  lemma {:induction false} QueryPayloadCover(codec: Codec, d: StructDecl, items: seq<Value>, n: nat)
    requires n <= |d.fields| == |items|
    ensures QueryPayloadPrefix(codec, d, items, n).Success? ==>
      forall i :: 0 <= i < n && !IsBlank(d.fields[i]) && !Absent(d.fields[i], items[i]) ==>
        EffectiveName(d.fields[i]) in QueryPayloadPrefix(codec, d, items, n).value
    decreases n
  {
    if n > 0 && QueryPayloadPrefix(codec, d, items, n).Success? {
      QueryPayloadCover(codec, d, items, n - 1);
      QueryPayloadUnfold(codec, d, items, n);
    }
  }

  /** The query entry of one field: its serialised value when set, nothing when nil. */
  predicate QueryEntry(codec: Codec, q: map<string, seq<string>>, f: FieldDecl, v: Value) {
    && (Absent(f, v) ==> EffectiveName(f) !in q)
    && (!Absent(f, v) ==>
          Serialize(codec, v).Success? && EffectiveName(f) in q && q[EffectiveName(f)] == [Serialize(codec, v).value])
  }

  /** A nil field whose public name no earlier named field shares has no entry. */
  lemma QueryAbsentEntry(codec: Codec, d: StructDecl, items: seq<Value>, n: nat)
    requires 0 < n <= |d.fields| == |items|
    requires EffectiveNamesDistinct(d, n) && !IsBlank(d.fields[n - 1])
    requires QueryPayloadPrefix(codec, d, items, n - 1).Success?
    ensures EffectiveName(d.fields[n - 1]) !in QueryPayloadPrefix(codec, d, items, n - 1).value
  {
    QueryPayloadKeys(codec, d, items, n - 1);
  }

  /** With distinct public names, each entry is that field's serialised value; a nil field has none. */
  lemma {:induction false} QueryPayloadValues(codec: Codec, d: StructDecl, items: seq<Value>, n: nat)
    requires n <= |d.fields| == |items|
    requires EffectiveNamesDistinct(d, n)
    ensures QueryPayloadPrefix(codec, d, items, n).Success? ==>
      forall i :: 0 <= i < n && !IsBlank(d.fields[i]) ==>
        QueryEntry(codec, QueryPayloadPrefix(codec, d, items, n).value, d.fields[i], items[i])
    decreases n
  {
    if n > 0 && QueryPayloadPrefix(codec, d, items, n).Success? {
      EffectiveNamesDistinctPrefix(d, n);
      QueryPayloadValues(codec, d, items, n - 1);
      QueryPayloadUnfold(codec, d, items, n);
      var acc := QueryPayloadPrefix(codec, d, items, n - 1).value;
      var q := QueryPayloadPrefix(codec, d, items, n).value;
      var f := d.fields[n - 1];
      if !IsBlank(f) && Absent(f, items[n - 1]) {
        QueryAbsentEntry(codec, d, items, n);
      }
      forall i | 0 <= i < n - 1 && !IsBlank(d.fields[i]) ensures QueryEntry(codec, q, d.fields[i], items[i]) {
        assert QueryEntry(codec, acc, d.fields[i], items[i]);
        if !IsBlank(f) {
          assert EffectiveName(d.fields[i]) != EffectiveName(f);
        }
      }
    }
  }

  /** The parameters of a template. */
  predicate ParamsAgree(segs: seq<Segment>, m1: map<string, string>, m2: map<string, string>) {
    forall i :: 0 <= i < |segs| && segs[i].Param? ==>
      (segs[i].name in m1 <==> segs[i].name in m2) && (segs[i].name in m1 ==> m1[segs[i].name] == m2[segs[i].name])
  }

  /** Rendering a template reads only the values of its parameters. */
  lemma {:induction false} RenderValuesFrame(segs: seq<Segment>, m1: map<string, string>, m2: map<string, string>)
    requires ParamsAgree(segs, m1, m2)
    ensures RenderValues(segs, m1) == RenderValues(segs, m2)
    decreases |segs|
  {
    if segs != [] {
      var p := segs[..|segs| - 1];
      assert forall i :: 0 <= i < |p| ==> p[i] == segs[i];
      RenderValuesFrame(p, m1, m2);
    }
  }

  /** The path entry of a named field: its serialised value. */
  predicate PathEntry(codec: Codec, path: map<string, string>, f: FieldDecl, v: Value) {
    f.name in path && Serialize(codec, v) == Success(path[f.name])
  }

  /** One step of the path loop, when it succeeds. */
  lemma PathPayloadUnfold(codec: Codec, d: StructDecl, items: seq<Value>, n: nat)
    requires 0 < n <= |d.fields| == |items|
    requires PathPayloadPrefix(codec, d, items, n).Success?
    ensures PathPayloadPrefix(codec, d, items, n - 1).Success?
    ensures var acc := PathPayloadPrefix(codec, d, items, n - 1).value;
      var cur := PathPayloadPrefix(codec, d, items, n).value;
      var f := d.fields[n - 1];
      && (IsBlank(f) ==> cur.path == acc.path && cur.pathStr == acc.pathStr + ("/" + TrimPrefix(TagGet(f, "path"), "/"))
                         && TagGet(f, "path") != "")
      && (!IsBlank(f) ==>
            && Serialize(codec, items[n - 1]).Success?
            && cur.path == acc.path[f.name := Serialize(codec, items[n - 1]).value]
            && cur.pathStr == acc.pathStr + ("/" + Serialize(codec, items[n - 1]).value))
  {
  }

  /** The path map holds only the declared names of named fields. */
  lemma {:induction false} PathPayloadKeys(codec: Codec, d: StructDecl, items: seq<Value>, n: nat)
    requires n <= |d.fields| == |items|
    ensures PathPayloadPrefix(codec, d, items, n).Success? ==>
      forall name :: name in PathPayloadPrefix(codec, d, items, n).value.path ==>
        exists i :: 0 <= i < n && !IsBlank(d.fields[i]) && d.fields[i].name == name
    decreases n
  {
    if n > 0 && PathPayloadPrefix(codec, d, items, n).Success? {
      PathPayloadKeys(codec, d, items, n - 1);
      PathPayloadUnfold(codec, d, items, n);
      var acc := PathPayloadPrefix(codec, d, items, n - 1).value;
      var cur := PathPayloadPrefix(codec, d, items, n).value;
      assert cur.path.Keys <= acc.path.Keys + (if IsBlank(d.fields[n - 1]) then {} else {d.fields[n - 1].name});
      NamedKeysStep(d, n, acc.path.Keys, cur.path.Keys);
    }
  }

  /** The key step of PathPayloadKeys: one more field adds at most its own name. */
  lemma NamedKeysStep(d: StructDecl, n: nat, before: set<string>, after: set<string>)
    requires 0 < n <= |d.fields|
    requires forall name :: name in before ==> exists i :: 0 <= i < n - 1 && !IsBlank(d.fields[i]) && d.fields[i].name == name
    requires after <= before + (if IsBlank(d.fields[n - 1]) then {} else {d.fields[n - 1].name})
    ensures forall name :: name in after ==> exists i :: 0 <= i < n && !IsBlank(d.fields[i]) && d.fields[i].name == name
  {
    forall name | name in after ensures exists i :: 0 <= i < n && !IsBlank(d.fields[i]) && d.fields[i].name == name {
      if name in before {
        var i :| 0 <= i < n - 1 && !IsBlank(d.fields[i]) && d.fields[i].name == name;
        assert 0 <= i < n;
      } else {
        assert d.fields[n - 1].name == name;
      }
    }
  }

  /** With distinct declared names, the path map sends each named field to its serialised value. */
  lemma {:induction false} PathPayloadMap(codec: Codec, d: StructDecl, items: seq<Value>, n: nat)
    requires n <= |d.fields| == |items|
    requires NamesDistinct(d, n)
    ensures PathPayloadPrefix(codec, d, items, n).Success? ==>
      forall i :: 0 <= i < n && !IsBlank(d.fields[i]) ==>
        PathEntry(codec, PathPayloadPrefix(codec, d, items, n).value.path, d.fields[i], items[i])
    decreases n
  {
    if n > 0 && PathPayloadPrefix(codec, d, items, n).Success? {
      NamesDistinctPrefix(d, n);
      PathPayloadMap(codec, d, items, n - 1);
      PathPayloadUnfold(codec, d, items, n);
      PathMapStep(codec, d, items, n, PathPayloadPrefix(codec, d, items, n - 1).value.path, PathPayloadPrefix(codec, d, items, n).value.path);
    }
  }

  /** One step of PathPayloadMap, on the path maps before and after field `n - 1`. */
  lemma PathMapStep(codec: Codec, d: StructDecl, items: seq<Value>, n: nat, before: map<string, string>, after: map<string, string>)
    requires 0 < n <= |d.fields| == |items| && NamesDistinct(d, n)
    requires forall i :: 0 <= i < n - 1 && !IsBlank(d.fields[i]) ==> PathEntry(codec, before, d.fields[i], items[i])
    requires IsBlank(d.fields[n - 1]) ==> after == before
    requires !IsBlank(d.fields[n - 1]) ==>
      Serialize(codec, items[n - 1]).Success? && after == before[d.fields[n - 1].name := Serialize(codec, items[n - 1]).value]
    ensures forall i :: 0 <= i < n && !IsBlank(d.fields[i]) ==> PathEntry(codec, after, d.fields[i], items[i])
  {
    var f := d.fields[n - 1];
    if !IsBlank(f) {
      var s := Serialize(codec, items[n - 1]).value;
      forall i | 0 <= i < n - 1 && !IsBlank(d.fields[i]) ensures PathEntry(codec, after, d.fields[i], items[i]) {
        PathEntryKept(codec, before, d.fields[i], items[i], f.name, s);
      }
    }
  }

  /** Binding another name keeps a field's path entry. */
  lemma PathEntryKept(codec: Codec, path: map<string, string>, f: FieldDecl, v: Value, name: string, s: string)
    requires PathEntry(codec, path, f, v) && name != f.name
    ensures PathEntry(codec, path[name := s], f, v)
  {
  }

  /** No parameter of the template carries `name`. */
  predicate NoParamNamed(segs: seq<Segment>, name: string) {
    forall i :: 0 <= i < |segs| && segs[i].Param? ==> segs[i].name != name
  }

  /** Binding a name that is not a parameter of the template does not change its rendering. */
  lemma RenderValuesUpdate(segs: seq<Segment>, m: map<string, string>, name: string, s: string)
    requires NoParamNamed(segs, name)
    ensures RenderValues(segs, m[name := s]) == RenderValues(segs, m)
  {
    assert ParamsAgree(segs, m, m[name := s]);
    RenderValuesFrame(segs, m, m[name := s]);
  }

  /** Rendering a template one literal longer. */
  lemma RenderLiteralStep(p: seq<Segment>, t: string, m: map<string, string>, prefix: string)
    requires RenderValues(p, m) == Some(prefix)
    ensures RenderValues(p + [Literal(t)], m) == Some(prefix + ("/" + t))
  {
    assert (p + [Literal(t)])[..|p|] == p;
  }

  /** Rendering a template one parameter longer, with that parameter newly bound. */
  lemma RenderParamStep(p: seq<Segment>, name: string, m: map<string, string>, prefix: string, s: string)
    requires NoParamNamed(p, name)
    requires RenderValues(p, m) == Some(prefix)
    ensures RenderValues(p + [Param(name)], m[name := s]) == Some(prefix + ("/" + s))
  {
    RenderValuesUpdate(p, m, name, s);
    assert (p + [Param(name)])[..|p|] == p;
  }

  /** With distinct names, no parameter of the template of the first `m` fields carries the name of field `m`. */
  lemma TemplateParamsBefore(d: StructDecl, m: nat)
    requires m < |d.fields|
    requires NamesDistinct(d, m + 1) && !IsBlank(d.fields[m])
    ensures NoParamNamed(Template(d, m), d.fields[m].name)
  {
    var p := Template(d, m);
    TemplateParams(d, m);
    forall i | 0 <= i < |p| && p[i].Param? ensures p[i].name != d.fields[m].name {
      assert p[i] == SegmentOf(d.fields[i]);
    }
  }

  /** A tagged blank field extends the rendered template by its literal. */
  lemma TemplateLiteralStep(d: StructDecl, n: nat, m: map<string, string>, prefix: string)
    requires 0 < n <= |d.fields| && IsBlank(d.fields[n - 1]) && TagGet(d.fields[n - 1], "path") != ""
    requires RenderValues(Template(d, n - 1), m) == Some(prefix)
    ensures RenderValues(Template(d, n), m) == Some(prefix + ("/" + TrimPrefix(TagGet(d.fields[n - 1], "path"), "/")))
  {
    RenderLiteralStep(Template(d, n - 1), TrimPrefix(TagGet(d.fields[n - 1], "path"), "/"), m, prefix);
  }

  /** A named field, bound to its value, extends the rendered template by that value. */
  lemma TemplateParamStep(d: StructDecl, n: nat, m: map<string, string>, prefix: string, s: string)
    requires 0 < n <= |d.fields| && !IsBlank(d.fields[n - 1])
    requires NamesDistinct(d, n)
    requires RenderValues(Template(d, n - 1), m) == Some(prefix)
    ensures RenderValues(Template(d, n), m[d.fields[n - 1].name := s]) == Some(prefix + ("/" + s))
  {
    TemplateParamsBefore(d, n - 1);
    RenderParamStep(Template(d, n - 1), d.fields[n - 1].name, m, prefix, s);
  }

  /**
   * With distinct declared names, the concrete path is the template with
   * every parameter replaced by its value in the path map.
   */
  lemma {:induction false} PathPayloadRender(codec: Codec, d: StructDecl, items: seq<Value>, n: nat)
    requires n <= |d.fields| == |items|
    requires NamesDistinct(d, n)
    ensures PathPayloadPrefix(codec, d, items, n).Success? ==>
      RenderValues(Template(d, n), PathPayloadPrefix(codec, d, items, n).value.path)
        == Some(PathPayloadPrefix(codec, d, items, n).value.pathStr)
    decreases n
  {
    if n > 0 {
      if PathPayloadPrefix(codec, d, items, n).Success? {
        NamesDistinctPrefix(d, n);
        PathPayloadRender(codec, d, items, n - 1);
        PathPayloadUnfold(codec, d, items, n);
        var acc := PathPayloadPrefix(codec, d, items, n - 1).value;
        if IsBlank(d.fields[n - 1]) {
          TemplateLiteralStep(d, n, acc.path, acc.pathStr);
        } else {
          TemplateParamStep(d, n, acc.path, acc.pathStr, Serialize(codec, items[n - 1]).value);
        }
      }
    }
  }

  /** A template's parameters are in declaration order, one per named field. */
  lemma {:induction false} TemplateParams(d: StructDecl, n: nat)
    requires n <= |d.fields|
    ensures |Template(d, n)| == n
    ensures forall i :: 0 <= i < n ==> Template(d, n)[i] == SegmentOf(d.fields[i])
    decreases n
  {
    if n > 0 {
      TemplateParams(d, n - 1);
    }
  }

  /** An untagged blank path field makes ToPayload fail. */
  lemma {:induction false} UntaggedBlankRejected(codec: Codec, d: StructDecl, items: seq<Value>, n: nat, i: nat)
    requires i < n <= |d.fields| == |items|
    requires IsBlank(d.fields[i]) && TagGet(d.fields[i], "path") == ""
    ensures PathPayloadPrefix(codec, d, items, n).Failure?
    decreases n
  {
    if i < n - 1 {
      UntaggedBlankRejected(codec, d, items, n - 1, i);
    }
  }

  /**
   * ToPayload's concrete path and the path plan's pattern come from the same
   * template: the literal segments agree, and each `:Name` of the pattern is
   * that field's serialised value in the concrete path.
   */
  lemma PathStrMatchesFlatPath(codec: Codec, types: InputTypes, e: EndpointInput)
    requires InputShaped(types, e)
    requires PayloadOf(codec, types, e).Success?
    requires PathPlan(types.path).Success?
    ensures types.path.Struct?
    ensures var t := Template(types.path.decl, |types.path.decl.fields|);
      && PathPlan(types.path).value.flatPath == RenderPattern(t)
      && RenderValues(t, PayloadOf(codec, types, e).value.path) == Some(PayloadOf(codec, types, e).value.pathStr)
  {
    var d := types.path.decl;
    PathPlanBindings(d, |d.fields|);
    PathPlanPattern(d, |d.fields|);
    PathPayloadRender(codec, d, e.path.items, |d.fields|);
  }

  // ---------------------------------------------------------------------------
  // parse

  /**
   * The field setters: a wire string is parsed into the field's type; no
   * string at all leaves a pointer field nil and is an error for any other.
   */
  function SetFromString(codec: Codec, f: FieldDecl, from: Option<string>): Result<Value> {
    match from
    case None =>
      if f.kind.Ptr? then Success(Nil) else Failure(BadRequest("missing required parameter '" + f.name + "'"))
    case Some(s) =>
      match codec.unmarshal(f.kind, s)
      case None => Failure(BadRequest("failed to parse '" + s + "' into field " + f.name))
      case Some(v) => Success(v)
  }

  /** A multi-map lookup: the values under `key`, none when it is absent. */
  function Values(m: map<string, seq<string>>, key: string): seq<string> {
    if key in m then m[key] else []
  }

  /** The header binding of field `i`. */
  function HeaderOutcome(codec: Codec, headers: map<string, seq<string>>, d: StructDecl, i: nat): Result<Value>
    requires i < |d.fields|
  {
    var lkName := AnalyzeField(d, i).lkName;
    var inputValue := Values(headers, lkName);
    if |inputValue| > 1 then Failure(BadRequest("repeated header parameters not yet supported, field: " + lkName))
    else SetFromString(codec, d.fields[i], if |inputValue| == 0 then None else Some(inputValue[0]))
  }

  /** The path binding of field `i`. */
  function PathOutcome(codec: Codec, path: map<string, string>, d: StructDecl, i: nat): Result<Value>
    requires i < |d.fields|
  {
    var name := d.fields[i].name;
    if name !in path then Failure(BadRequest("missing path parameter '" + name + "'"))
    else SetFromString(codec, d.fields[i], Some(path[name]))
  }

  /** The query binding of field `i`. */
  function QueryOutcome(codec: Codec, query: map<string, seq<string>>, d: StructDecl, i: nat): Result<Value>
    requires i < |d.fields|
  {
    var name := d.fields[i].name;
    var inputValue := Values(query, name);
    if |inputValue| > 1 then Failure(BadRequest("repeated query parameters not yet supported, field: " + name))
    else SetFromString(codec, d.fields[i], if |inputValue| == 0 then None else Some(inputValue[0]))
  }

  function OrZero(r: Result<Value>, k: Kind): Value {
    if r.Success? then r.value else ZeroOf(k)
  }

  /** The items of a zero struct value. */
  function ZeroItems(d: StructDecl): seq<Value> {
    seq(|d.fields|, i requires 0 <= i < |d.fields| => ZeroOf(d.fields[i].kind))
  }

  predicate HeadersOk(codec: Codec, headers: map<string, seq<string>>, d: StructDecl) {
    forall i :: 0 <= i < |d.fields| && HeaderBound(d, i) ==> HeaderOutcome(codec, headers, d, i).Success?
  }

  predicate PathOk(codec: Codec, path: map<string, string>, d: StructDecl) {
    forall i :: 0 <= i < |d.fields| && !IsBlank(d.fields[i]) ==> PathOutcome(codec, path, d, i).Success?
  }

  predicate QueryOk(codec: Codec, query: map<string, seq<string>>, d: StructDecl) {
    forall i :: 0 <= i < |d.fields| && !IsBlank(d.fields[i]) ==> QueryOutcome(codec, query, d, i).Success?
  }

  /** The parsed headers: each bound field holds its outcome, every other one its zero value. */
  function ParsedHeaders(codec: Codec, headers: map<string, seq<string>>, d: StructDecl): seq<Value> {
    seq(|d.fields|, i requires 0 <= i < |d.fields| =>
      if HeaderBound(d, i) then OrZero(HeaderOutcome(codec, headers, d, i), d.fields[i].kind) else ZeroOf(d.fields[i].kind))
  }

  function ParsedPath(codec: Codec, path: map<string, string>, d: StructDecl): seq<Value> {
    seq(|d.fields|, i requires 0 <= i < |d.fields| =>
      if !IsBlank(d.fields[i]) then OrZero(PathOutcome(codec, path, d, i), d.fields[i].kind) else ZeroOf(d.fields[i].kind))
  }

  function ParsedQuery(codec: Codec, query: map<string, seq<string>>, d: StructDecl): seq<Value> {
    seq(|d.fields|, i requires 0 <= i < |d.fields| =>
      if !IsBlank(d.fields[i]) then OrZero(QueryOutcome(codec, query, d, i), d.fields[i].kind) else ZeroOf(d.fields[i].kind))
  }

  /** The body: decoded only when its type has at least one field, blank ones included. */
  function ParseBody(codec: Codec, k: Kind, bytes: Bytes): Result<Value> {
    if !k.Struct? then Failure(InternalError("BodyType must be a struct, this should have been caught in initial validation step"))
    else if NumField(k) >= 1 then
      match codec.unmarshalBody(k, bytes)
      case None => Failure(BadRequest("failed to unmarshal body"))
      case Some(v) => Success(v)
    else Success(ZeroOf(k))
  }

  /** The plans parse is handed are the ones computed from the same types. */
  predicate Planned(types: InputTypes, hb: HeaderBindings, pb: PathBindings, qb: QueryBindings) {
    && types.headers.Struct? && types.path.Struct? && types.query.Struct?
    && HeaderPlan(types.headers) == Success(hb)
    && PathPlan(types.path) == Success(pb)
    && QueryPlan(types.query) == Success(qb)
  }

  predicate ParseOk(codec: Codec, types: InputTypes, payload: InputPayload)
    requires types.headers.Struct? && types.path.Struct? && types.query.Struct?
  {
    && HeadersOk(codec, payload.headers, types.headers.decl)
    && PathOk(codec, payload.path, types.path.decl)
    && QueryOk(codec, payload.query, types.query.decl)
    && ParseBody(codec, types.body, payload.body).Success?
  }

  function Parsed(codec: Codec, types: InputTypes, payload: InputPayload): EndpointInput
    requires types.headers.Struct? && types.path.Struct? && types.query.Struct?
    requires ParseOk(codec, types, payload)
  {
    EndpointInput(
      RecordVal(ParsedHeaders(codec, payload.headers, types.headers.decl)),
      RecordVal(ParsedPath(codec, payload.path, types.path.decl)),
      RecordVal(ParsedQuery(codec, payload.query, types.query.decl)),
      ParseBody(codec, types.body, payload.body).value)
  }

  /** The slot of header field `i` once the keys outside `remaining` are bound. */
  function HeaderSlot(codec: Codec, headers: map<string, seq<string>>, d: StructDecl, i: nat, remaining: set<string>): Value
    requires i < |d.fields|
  {
    if HeaderBound(d, i) && AnalyzeField(d, i).lkName !in remaining then OrZero(HeaderOutcome(codec, headers, d, i), d.fields[i].kind)
    else ZeroOf(d.fields[i].kind)
  }

  /** Every header field is bound under its own lookup key. */
  ghost predicate HeaderKeysCover(d: StructDecl, b: map<string, FieldSetter>) {
    forall i :: 0 <= i < |d.fields| && HeaderBound(d, i) ==>
      AnalyzeField(d, i).lkName in b && b[AnalyzeField(d, i).lkName].index == i
  }

  /** The state of the header loop once the keys outside `remaining` are bound. */
  ghost predicate HeaderProgress(codec: Codec, headers: map<string, seq<string>>, d: StructDecl, items: seq<Value>, remaining: set<string>) {
    && |items| == |d.fields|
    && (forall i :: 0 <= i < |d.fields| ==> items[i] == HeaderSlot(codec, headers, d, i, remaining))
    && (forall i :: 0 <= i < |d.fields| && HeaderBound(d, i) && AnalyzeField(d, i).lkName !in remaining ==>
          HeaderOutcome(codec, headers, d, i).Success?)
  }

  lemma HeaderProgressInit(codec: Codec, payload: InputPayload, d: StructDecl, b: map<string, FieldSetter>)
    requires HeaderKeysCover(d, b)
    ensures HeaderProgress(codec, payload.headers, d, ZeroItems(d), b.Keys)
  {
  }

  /** Binding one more header key updates exactly the slot of its field. */
  lemma HeaderProgressStep(codec: Codec, payload: InputPayload, d: StructDecl, b: map<string, FieldSetter>,
                           remaining: set<string>, name: string, items: seq<Value>, v: Value)
    requires HeaderKeysCover(d, b)
    requires name in b && b[name].index < |d.fields|
    requires HeaderBound(d, b[name].index) && AnalyzeField(d, b[name].index).lkName == name
    requires HeaderOutcome(codec, payload.headers, d, b[name].index) == Success(v)
    requires HeaderProgress(codec, payload.headers, d, items, remaining)
    ensures HeaderProgress(codec, payload.headers, d, items[b[name].index := v], remaining - {name})
  {
    forall i | 0 <= i < |d.fields|
      ensures items[b[name].index := v][i] == HeaderSlot(codec, payload.headers, d, i, remaining - {name})
    {
      if i != b[name].index && HeaderBound(d, i) {
        assert AnalyzeField(d, i).lkName != name;
      }
    }
  }

  lemma HeaderProgressDone(codec: Codec, payload: InputPayload, d: StructDecl, items: seq<Value>)
    requires HeaderProgress(codec, payload.headers, d, items, {})
    ensures HeadersOk(codec, payload.headers, d)
    ensures items == ParsedHeaders(codec, payload.headers, d)
  {
  }

  /** One header binding: the value for the key `name`, bound to field `setter.index`. */
  method ParseHeader(codec: Codec, payload: InputPayload, d: StructDecl, name: string, setter: FieldSetter)
    returns (r: Result<Value>)
    requires setter.index < |d.fields| && setter.field == d.fields[setter.index]
    requires AnalyzeField(d, setter.index).lkName == name && ToLower(name) == name
    ensures r == HeaderOutcome(codec, payload.headers, d, setter.index)
    ensures r.Failure? ==> r.error.BadRequest?
  {
    var lkName := ToLower(name);
    var inputValue := Values(payload.headers, lkName);
    if |inputValue| > 1 {
      return Failure(BadRequest("repeated header parameters not yet supported, field: " + name));
    }
    var from := if |inputValue| == 0 then None else Some(inputValue[0]);
    r := SetFromString(codec, setter.field, from);
  }

  /** The header loop of parse, over the binding keys in any order. */
  method ParseHeaders(codec: Codec, payload: InputPayload, d: StructDecl, info: AnalyzedStruct, bindings: map<string, FieldSetter>)
    returns (r: Result<seq<Value>>)
    requires HeaderTable(d, info, bindings)
    ensures r.Success? <==> HeadersOk(codec, payload.headers, d)
    ensures r.Success? ==> r.value == ParsedHeaders(codec, payload.headers, d)
    ensures r.Failure? ==> r.error.BadRequest?
  {
    var items := ZeroItems(d);
    var remaining := bindings.Keys;
    HeaderProgressInit(codec, payload, d, bindings);
    while remaining != {}
      invariant remaining <= bindings.Keys
      invariant HeaderProgress(codec, payload.headers, d, items, remaining)
      decreases remaining
    {
      var name :| name in remaining;
      var setter := bindings[name];
      var lkName := ToLower(name);
      var fieldInfo := info.fieldsByLKName[lkName];
      var v := ParseHeader(codec, payload, d, name, setter);
      if v.Failure? {
        assert !HeadersOk(codec, payload.headers, d) by {
          assert HeaderBound(d, setter.index);
        }
        return Failure(v.error);
      }
      HeaderProgressStep(codec, payload, d, bindings, remaining, name, items, v.value);
      items := items[fieldInfo.index := v.value];
      remaining := remaining - {name};
    }
    HeaderProgressDone(codec, payload, d, items);
    return Success(items);
  }

  /** The slot of path field `i` once the names outside `remaining` are bound. */
  function PathSlot(codec: Codec, path: map<string, string>, d: StructDecl, i: nat, remaining: set<string>): Value
    requires i < |d.fields|
  {
    if !IsBlank(d.fields[i]) && d.fields[i].name !in remaining then OrZero(PathOutcome(codec, path, d, i), d.fields[i].kind)
    else ZeroOf(d.fields[i].kind)
  }

  /** The slot of query field `i` once the names outside `remaining` are bound. */
  function QuerySlot(codec: Codec, query: map<string, seq<string>>, d: StructDecl, i: nat, remaining: set<string>): Value
    requires i < |d.fields|
  {
    if !IsBlank(d.fields[i]) && d.fields[i].name !in remaining then OrZero(QueryOutcome(codec, query, d, i), d.fields[i].kind)
    else ZeroOf(d.fields[i].kind)
  }

  /** The state of the path loop once the names outside `remaining` are bound. */
  ghost predicate PathProgress(codec: Codec, path: map<string, string>, d: StructDecl, items: seq<Value>, remaining: set<string>) {
    && |items| == |d.fields|
    && (forall i :: 0 <= i < |d.fields| ==> items[i] == PathSlot(codec, path, d, i, remaining))
    && (forall i :: 0 <= i < |d.fields| && !IsBlank(d.fields[i]) && d.fields[i].name !in remaining ==>
          PathOutcome(codec, path, d, i).Success?)
  }

  /** The state of the query loop once the names outside `remaining` are bound. */
  ghost predicate QueryProgress(codec: Codec, query: map<string, seq<string>>, d: StructDecl, items: seq<Value>, remaining: set<string>) {
    && |items| == |d.fields|
    && (forall i :: 0 <= i < |d.fields| ==> items[i] == QuerySlot(codec, query, d, i, remaining))
    && (forall i :: 0 <= i < |d.fields| && !IsBlank(d.fields[i]) && d.fields[i].name !in remaining ==>
          QueryOutcome(codec, query, d, i).Success?)
  }

  lemma PathProgressInit(codec: Codec, payload: InputPayload, d: StructDecl, b: map<string, FieldSetter>)
    requires NameTable(d, |d.fields|, b)
    ensures PathProgress(codec, payload.path, d, ZeroItems(d), b.Keys)
  {
  }

  lemma QueryProgressInit(codec: Codec, payload: InputPayload, d: StructDecl, b: map<string, FieldSetter>)
    requires NameTable(d, |d.fields|, b)
    ensures QueryProgress(codec, payload.query, d, ZeroItems(d), b.Keys)
  {
  }

  /** Binding one more path name updates exactly the slot of its field. */
  lemma PathProgressStep(codec: Codec, payload: InputPayload, d: StructDecl, b: map<string, FieldSetter>,
                         remaining: set<string>, name: string, items: seq<Value>, v: Value)
    requires NameTable(d, |d.fields|, b)
    requires name in b
    requires PathOutcome(codec, payload.path, d, b[name].index) == Success(v)
    requires PathProgress(codec, payload.path, d, items, remaining)
    ensures PathProgress(codec, payload.path, d, items[b[name].index := v], remaining - {name})
  {
    forall i | 0 <= i < |d.fields|
      ensures items[b[name].index := v][i] == PathSlot(codec, payload.path, d, i, remaining - {name})
    {
      if i != b[name].index && !IsBlank(d.fields[i]) {
        assert d.fields[i].name != name;
      }
    }
  }

  /** Binding one more query name updates exactly the slot of its field. */
  lemma QueryProgressStep(codec: Codec, payload: InputPayload, d: StructDecl, b: map<string, FieldSetter>,
                          remaining: set<string>, name: string, items: seq<Value>, v: Value)
    requires NameTable(d, |d.fields|, b)
    requires name in b
    requires QueryOutcome(codec, payload.query, d, b[name].index) == Success(v)
    requires QueryProgress(codec, payload.query, d, items, remaining)
    ensures QueryProgress(codec, payload.query, d, items[b[name].index := v], remaining - {name})
  {
    forall i | 0 <= i < |d.fields|
      ensures items[b[name].index := v][i] == QuerySlot(codec, payload.query, d, i, remaining - {name})
    {
      if i != b[name].index && !IsBlank(d.fields[i]) {
        assert d.fields[i].name != name;
      }
    }
  }

  lemma PathProgressDone(codec: Codec, payload: InputPayload, d: StructDecl, items: seq<Value>)
    requires PathProgress(codec, payload.path, d, items, {})
    ensures PathOk(codec, payload.path, d)
    ensures items == ParsedPath(codec, payload.path, d)
  {
  }

  lemma QueryProgressDone(codec: Codec, payload: InputPayload, d: StructDecl, items: seq<Value>)
    requires QueryProgress(codec, payload.query, d, items, {})
    ensures QueryOk(codec, payload.query, d)
    ensures items == ParsedQuery(codec, payload.query, d)
  {
  }

  /** One path binding: the value for the name `name`, bound to field `setter.index`. */
  method ParsePathParam(codec: Codec, payload: InputPayload, d: StructDecl, name: string, setter: FieldSetter)
    returns (r: Result<Value>)
    requires setter.index < |d.fields| && setter.field == d.fields[setter.index] && d.fields[setter.index].name == name
    ensures r == PathOutcome(codec, payload.path, d, setter.index)
    ensures r.Failure? ==> r.error.BadRequest?
  {
    if name !in payload.path {
      return Failure(BadRequest("missing path parameter '" + name + "'"));
    }
    var inputValue := payload.path[name];
    r := SetFromString(codec, setter.field, Some(inputValue));
  }

  /** One query binding: the values for the name `name`, bound to field `setter.index`. */
  method ParseQueryParam(codec: Codec, payload: InputPayload, d: StructDecl, name: string, setter: FieldSetter)
    returns (r: Result<Value>)
    requires setter.index < |d.fields| && setter.field == d.fields[setter.index] && d.fields[setter.index].name == name
    ensures r == QueryOutcome(codec, payload.query, d, setter.index)
    ensures r.Failure? ==> r.error.BadRequest?
  {
    var inputValue := Values(payload.query, name);
    if |inputValue| > 1 {
      return Failure(BadRequest("repeated query parameters not yet supported, field: " + name));
    }
    var from := if |inputValue| == 0 then None else Some(inputValue[0]);
    r := SetFromString(codec, setter.field, from);
  }

  /** The path loop of parse, over the binding keys in any order. */
  method ParsePath(codec: Codec, payload: InputPayload, d: StructDecl, bindings: map<string, FieldSetter>)
    returns (r: Result<seq<Value>>)
    requires NameTable(d, |d.fields|, bindings)
    ensures r.Success? <==> PathOk(codec, payload.path, d)
    ensures r.Success? ==> r.value == ParsedPath(codec, payload.path, d)
    ensures r.Failure? ==> r.error.BadRequest?
  {
    var items := ZeroItems(d);
    var remaining := bindings.Keys;
    PathProgressInit(codec, payload, d, bindings);
    while remaining != {}
      invariant remaining <= bindings.Keys
      invariant PathProgress(codec, payload.path, d, items, remaining)
      decreases remaining
    {
      var name :| name in remaining;
      var setter := bindings[name];
      var v := ParsePathParam(codec, payload, d, name, setter);
      if v.Failure? {
        assert !IsBlank(d.fields[setter.index]);
        return Failure(v.error);
      }
      PathProgressStep(codec, payload, d, bindings, remaining, name, items, v.value);
      items := items[setter.index := v.value];
      remaining := remaining - {name};
    }
    PathProgressDone(codec, payload, d, items);
    return Success(items);
  }

  /** The query loop of parse, over the binding keys in any order. */
  method ParseQuery(codec: Codec, payload: InputPayload, d: StructDecl, bindings: map<string, FieldSetter>)
    returns (r: Result<seq<Value>>)
    requires NameTable(d, |d.fields|, bindings)
    ensures r.Success? <==> QueryOk(codec, payload.query, d)
    ensures r.Success? ==> r.value == ParsedQuery(codec, payload.query, d)
    ensures r.Failure? ==> r.error.BadRequest?
  {
    var items := ZeroItems(d);
    var remaining := bindings.Keys;
    QueryProgressInit(codec, payload, d, bindings);
    while remaining != {}
      invariant remaining <= bindings.Keys
      invariant QueryProgress(codec, payload.query, d, items, remaining)
      decreases remaining
    {
      var name :| name in remaining;
      var setter := bindings[name];
      var v := ParseQueryParam(codec, payload, d, name, setter);
      if v.Failure? {
        assert !IsBlank(d.fields[setter.index]);
        return Failure(v.error);
      }
      QueryProgressStep(codec, payload, d, bindings, remaining, name, items, v.value);
      items := items[setter.index := v.value];
      remaining := remaining - {name};
    }
    QueryProgressDone(codec, payload, d, items);
    return Success(items);
  }

  /** The body block of parse: decoded only when the body type has at least one field. */
  method DecodeBody(codec: Codec, bodyT: Kind, bytes: Bytes) returns (r: Result<Value>)
    ensures r == ParseBody(codec, bodyT, bytes)
  {
    if !bodyT.Struct? {
      return Failure(InternalError("BodyType must be a struct, this should have been caught in initial validation step"));
    }
    var numFields := NumField(bodyT);
    var body := ZeroOf(bodyT);
    if numFields >= 1 {
      var res := codec.unmarshalBody(bodyT, bytes);
      if res.None? {
        return Failure(BadRequest("failed to unmarshal body"));
      }
      body := res.value;
    }
    return Success(body);
  }

  /** What parse relies on: each binding map binds exactly the fields of its facet type. */
  ghost predicate BindingTables(types: InputTypes, hb: HeaderBindings, pb: PathBindings, qb: QueryBindings) {
    && types.headers.Struct? && types.path.Struct? && types.query.Struct?
    && Analyze(types.headers).Success?
    && HeaderTable(types.headers.decl, Analyze(types.headers).value, hb.bindings)
    && NameTable(types.path.decl, |types.path.decl.fields|, pb.bindings)
    && NameTable(types.query.decl, |types.query.decl.fields|, qb.bindings)
  }

  /** The plans computed from the facet types are binding tables. */
  lemma PlannedTables(types: InputTypes, hb: HeaderBindings, pb: PathBindings, qb: QueryBindings)
    requires Planned(types, hb, pb, qb)
    ensures BindingTables(types, hb, pb, qb)
  {
    HeaderPlanTable(types.headers);
    PathPlanBindings(types.path.decl, |types.path.decl.fields|);
    QueryPlanBindings(types.query.decl, |types.query.decl.fields|);
  }

  /**
   * parse: headers, path and query in turn, then the body. It succeeds exactly
   * when every binding and the body do, and then every bound field holds its
   * parsed value and everything else its zero value. A failure is a bad
   * request, except for a body type that is not a struct.
   */
  method Parse(codec: Codec, types: InputTypes, payload: InputPayload,
               headerBindings: HeaderBindings, pathBindings: PathBindings, queryBindings: QueryBindings)
    returns (r: Result<EndpointInput>)
    requires BindingTables(types, headerBindings, pathBindings, queryBindings)
    ensures r.Success? <==> ParseOk(codec, types, payload)
    ensures r.Success? ==> r.value == Parsed(codec, types, payload)
    ensures r.Failure? ==> r.error.BadRequest? || (r.error.InternalError? && !types.body.Struct?)
  {
    var headerStructInfo := Analyze(types.headers).value;
    var headers :- ParseHeaders(codec, payload, types.headers.decl, headerStructInfo, headerBindings.bindings);
    var path :- ParsePath(codec, payload, types.path.decl, pathBindings.bindings);
    var query :- ParseQuery(codec, payload, types.query.decl, queryBindings.bindings);
    var body :- DecodeBody(codec, types.body, payload.body);
    return Success(EndpointInput(RecordVal(headers), RecordVal(path), RecordVal(query), body));
  }

  // ---------------------------------------------------------------------------
  // InputPayload.QueryString

  /** One `key=value` pair of the query string: the key and its first value, escaped. */
  function QueryPair(codec: Codec, key: string, values: seq<string>): string
    requires |values| > 0
  {
    key + "=" + codec.queryEscape(values[0])
  }

  /** Every key of the query carries at least one value. */
  predicate HasValues(query: map<string, seq<string>>) {
    forall k :: k in query ==> |query[k]| > 0
  }

  /** `keys` lists every key of `m` exactly once. */
  ghost predicate Enumerates(keys: seq<string>, m: set<string>) {
    && (forall i, j :: 0 <= i < j < |keys| ==> keys[i] != keys[j])
    && (forall k :: k in keys <==> k in m)
  }

  /** The pairs of the query, in the order `keys` visits them. */
  function QueryPairs(codec: Codec, query: map<string, seq<string>>, keys: seq<string>): seq<string>
    requires HasValues(query)
    requires forall i :: 0 <= i < |keys| ==> keys[i] in query
  {
    seq(|keys|, i requires 0 <= i < |keys| => QueryPair(codec, keys[i], query[keys[i]]))
  }

  /** Each part followed by the separator. */
  function Terminated(parts: seq<string>, sep: char): string
    decreases |parts|
  {
    if parts == [] then "" else Terminated(parts[..|parts| - 1], sep) + parts[|parts| - 1] + [sep]
  }

  /** Every part followed by the separator is the joined parts and one more separator. */
  lemma {:induction false} TerminatedJoin(parts: seq<string>, sep: char)
    requires parts != []
    ensures Terminated(parts, sep) == Join(parts, sep) + [sep]
    decreases |parts|
  {
    var p := parts[..|parts| - 1];
    var last := parts[|parts| - 1];
    assert Terminated(parts, sep) == Terminated(p, sep) + last + [sep];
    assert Join(parts, sep) == if p == [] then last else Join(p, sep) + [sep] + last by {
      assert parts == p + [last];
      JoinAppend(p, last, sep);
    }
    if p != [] {
      TerminatedJoin(p, sep);
      assert Terminated(p, sep) + last + [sep] == (Join(p, sep) + [sep] + last) + [sep];
    }
  }

  /** The state of the QueryString loop once the keys outside `remaining` are written. */
  ghost predicate QueryStringProgress(codec: Codec, query: map<string, seq<string>>, keys: seq<string>,
                                      remaining: set<string>, result: string) {
    && HasValues(query)
    && remaining <= query.Keys
    && (forall i :: 0 <= i < |keys| ==> keys[i] in query)
    && Enumerates(keys, query.Keys - remaining)
    && result == "?" + Terminated(QueryPairs(codec, query, keys), '&')
  }

  /** Writing one more key appends its pair and a separator. */
  lemma QueryStringStep(codec: Codec, query: map<string, seq<string>>, keys: seq<string>,
                        remaining: set<string>, result: string, k: string)
    requires QueryStringProgress(codec, query, keys, remaining, result)
    requires k in remaining
    ensures QueryStringProgress(codec, query, keys + [k], remaining - {k},
                                result + (k + "=" + codec.queryEscape(query[k][0]) + "&"))
  {
    var keys' := keys + [k];
    var pairs := QueryPairs(codec, query, keys);
    var pairs' := QueryPairs(codec, query, keys');
    assert pairs' == pairs + [QueryPair(codec, k, query[k])];
    assert pairs'[..|pairs'| - 1] == pairs;
    forall j | j in keys' ensures j in query.Keys - (remaining - {k}) {
      if j != k {
        assert j in keys;
      }
    }
    forall j | j in query.Keys - (remaining - {k}) ensures j in keys' {
      if j != k {
        assert j in keys;
      }
    }
  }

  /** Once every key is written the result is the full query string, with one `&` too many. */
  lemma QueryStringDone(codec: Codec, query: map<string, seq<string>>, keys: seq<string>, result: string)
    requires QueryStringProgress(codec, query, keys, {}, result) && query != map[]
    ensures Enumerates(keys, query.Keys)
    ensures TrimSuffix(result, "&") == "?" + Join(QueryPairs(codec, query, keys), '&')
  {
    assert query.Keys - {} == query.Keys;
    assert keys != [] by {
      var k :| k in query;
    }
    var pairs := QueryPairs(codec, query, keys);
    TerminatedJoin(pairs, '&');
    assert result == ("?" + Join(pairs, '&')) + "&";
    TrimSuffixOfAppended("?" + Join(pairs, '&'), "&");
  }

  /**
   * QueryString: empty for an empty query, and otherwise `?` followed by the
   * pairs of every key, in map order, separated by `&`.
   */
  method QueryString(codec: Codec, query: map<string, seq<string>>) returns (s: string, ghost keys: seq<string>)
    requires HasValues(query)
    ensures Enumerates(keys, query.Keys)
    ensures query == map[] ==> s == ""
    ensures query != map[] ==> s == "?" + Join(QueryPairs(codec, query, keys), '&')
  {
    keys := [];
    if |query| == 0 {
      return "", keys;
    }
    var result := "?";
    var remaining := query.Keys;
    while remaining != {}
      invariant QueryStringProgress(codec, query, keys, remaining, result)
      decreases remaining
    {
      var k :| k in remaining;
      var v := query[k];
      var urlEncodedValue := codec.queryEscape(v[0]);
      QueryStringStep(codec, query, keys, remaining, result, k);
      result := result + (k + "=" + urlEncodedValue + "&");
      keys := keys + [k];
      remaining := remaining - {k};
    }
    QueryStringDone(codec, query, keys, result);
    s := TrimSuffix(result, "&");
  }

  /** A full query string starts with `?`, and never ends with `&` when escaping removes every `&`. */
  lemma QueryStringShape(codec: Codec, query: map<string, seq<string>>, keys: seq<string>)
    requires HasValues(query) && Enumerates(keys, query.Keys) && query != map[]
    ensures var s := "?" + Join(QueryPairs(codec, query, keys), '&');
      && s[0] == '?'
      && ((forall t :: '&' !in codec.queryEscape(t)) ==> s[|s| - 1] != '&')
  {
    var pairs := QueryPairs(codec, query, keys);
    assert keys != [] by {
      var k :| k in query;
    }
    var p := pairs[..|pairs| - 1];
    var last := pairs[|pairs| - 1];
    assert pairs == p + [last];
    JoinAppend(p, last, '&');
    var k := keys[|keys| - 1];
    var esc := codec.queryEscape(query[k][0]);
    assert last == k + "=" + esc;
    if forall t :: '&' !in codec.queryEscape(t) {
      if esc != [] {
        assert esc[|esc| - 1] in esc;
      }
    }
  }

  /**
   * When neither the keys nor the escaped values contain `&`, splitting the
   * string after `?` at `&` gives back the pairs.
   */
  lemma QueryStringSplits(codec: Codec, query: map<string, seq<string>>, keys: seq<string>)
    requires HasValues(query) && Enumerates(keys, query.Keys) && query != map[]
    requires forall k :: k in query ==> '&' !in k && '&' !in codec.queryEscape(query[k][0])
    ensures Split(("?" + Join(QueryPairs(codec, query, keys), '&'))[1..], '&') == QueryPairs(codec, query, keys)
  {
    var pairs := QueryPairs(codec, query, keys);
    assert keys != [] by {
      var k :| k in query;
    }
    forall i | 0 <= i < |pairs| ensures '&' !in pairs[i] {
      assert keys[i] in query;
    }
    SplitJoin(pairs, '&');
    assert ("?" + Join(pairs, '&'))[1..] == Join(pairs, '&');
  }
}
