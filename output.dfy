/**
 * The output side of pkg/apio/apio_output.go: the success status code, the
 * header map and body bytes a typed output is sent as, and the way a client
 * fills a typed output back in from received headers and body bytes.
 */
module Output {
  import opened Wrappers
  import opened Strings
  import opened Reflect
  import opened Analysis
  import opened Input

  /** The two facet types of EndpointOutput[HeadersType, BodyType]. */
  datatype OutputTypes = OutputTypes(headers: Kind, body: Kind)

  /** A typed output: one value per facet. */
  datatype EndpointOutput = EndpointOutput(headers: Value, body: Value)

  /** The wire form of a response. */
  datatype OutputPayload = OutputPayload(headers: map<string, seq<string>>, body: Bytes)

  /** The facet values have the shape their struct types demand. */
  predicate OutputShaped(types: OutputTypes, e: EndpointOutput) {
    Shaped(e.headers, types.headers) && Shaped(e.body, types.body)
  }

  /** The same error, its message prefixed as `fmt.Errorf("...: %w", err)` does. */
  function Wrap(prefix: string, e: Error): (r: Error)
    ensures r.DeclarationError? == e.DeclarationError? && r.BadRequest? == e.BadRequest?
    ensures r.message == prefix + ": " + e.message
  {
    match e
    case DeclarationError(m) => DeclarationError(prefix + ": " + m)
    case BadRequest(m) => BadRequest(prefix + ": " + m)
    case InternalError(m) => InternalError(prefix + ": " + m)
  }

  // ---------------------------------------------------------------------------
  // OkCode and GetBody

  const StatusOK: int := 200
  const StatusNoContent: int := 204

  /** OkCode: 204 No Content for a body without analyzed fields, 200 OK otherwise. */
  function OkCode(body: Kind): Result<int> {
    var bodyInfo :- Analyze(body);
    if |bodyInfo.fields| == 0 then Success(StatusNoContent) else Success(StatusOK)
  }

  /** GetBodyInfo: the analysis of the body type; a type that does not analyze is a panic. */
  function GetBodyInfo(types: OutputTypes): Result<AnalyzedStruct> {
    AnalyzeOrPanic(types.body, "failed to analyze struct")
  }

  /** GetBody: no bytes at all for a body without analyzed fields, its JSON otherwise. */
  function GetBody(codec: Codec, body: Kind, v: Value): Result<Bytes> {
    var structInfo :- Analyze(body);
    if |structInfo.fields| == 0 then Success([]) else MarshalBody(codec, v)
  }

  /** No field among the first `n` is blank exactly when `n` of them are bound. */
  lemma {:induction false} CountBoundZero(d: StructDecl, n: nat)
    requires n <= |d.fields|
    ensures CountBound(d, n) == 0 <==> forall i :: 0 <= i < n ==> IsBlank(d.fields[i])
    decreases n
  {
    if n > 0 {
      CountBoundZero(d, n - 1);
    }
  }

  /** The analysis of a struct holds one field per non-blank declared field. */
  lemma AnalyzedCount(k: Kind)
    requires Analyze(k).Success?
    ensures k.Struct? && |Analyze(k).value.fields| == CountBound(k.decl, |k.decl.fields|)
  {
    AnalyzeDescribes(k);
    BoundFieldsOrdered(k.decl, |k.decl.fields|);
  }

  /**
   * The status is 204 exactly when every declared field of the body is blank,
   * and 200 otherwise; a 204 body is sent as no bytes whatever its value.
   */
  lemma OkCodeSpec(codec: Codec, body: Kind, v: Value)
    ensures OkCode(body).Success? <==> Analyze(body).Success?
    ensures OkCode(body).Success? ==>
      && body.Struct?
      && (OkCode(body) == Success(StatusNoContent) <==> forall i :: 0 <= i < |body.decl.fields| ==> IsBlank(body.decl.fields[i]))
      && (OkCode(body) == Success(StatusOK) <==> exists i :: 0 <= i < |body.decl.fields| && !IsBlank(body.decl.fields[i]))
    ensures OkCode(body) == Success(StatusNoContent) ==> GetBody(codec, body, v) == Success([])
    ensures OkCode(body) == Success(StatusOK) ==> GetBody(codec, body, v) == MarshalBody(codec, v)
  {
    if Analyze(body).Success? {
      AnalyzedCount(body);
      CountBoundZero(body.decl, |body.decl.fields|);
    }
  }

  // ---------------------------------------------------------------------------
  // SetBody

  /**
   * SetBody as written: the body is left alone only when its type declares
   * no field at all, blank ones included; otherwise the bytes are decoded.
   */
  function SetBodyAsWritten(codec: Codec, types: OutputTypes, e: EndpointOutput, jsonBytes: Bytes): Result<EndpointOutput> {
    if !types.body.Struct? then Failure(DeclarationError("reflect: NumField of non-struct type"))
    else if NumField(types.body) == 0 then Success(e)
    else
      match codec.unmarshalBody(types.body, jsonBytes)
      case None => Failure(BadRequest("failed to unmarshal body"))
      case Some(res) => Success(e.(body := res))
  }

  /**
   * SetBody, with the test GetBody and OkCode use: the body is left alone
   * when its type has no analyzed (non-blank) field, and decoded otherwise.
   */
  function SetBody(codec: Codec, types: OutputTypes, e: EndpointOutput, jsonBytes: Bytes): Result<EndpointOutput> {
    if !types.body.Struct? then Failure(DeclarationError("reflect: NumField of non-struct type"))
    else if CountBound(types.body.decl, |types.body.decl.fields|) == 0 then Success(e)
    else
      match codec.unmarshalBody(types.body, jsonBytes)
      case None => Failure(BadRequest("failed to unmarshal body"))
      case Some(res) => Success(e.(body := res))
  }

  /**
   * A body type whose only field is blank: the response has status 204 and no
   * bytes, and SetBody as written then decodes those empty bytes, which JSON
   * refuses, while the corrected SetBody keeps the output as it is.
   */
  lemma BlankBodyRefused(codec: Codec, e: EndpointOutput, headersT: Kind)
    requires var k := Struct(StructDecl("example", "Empty", [FieldDecl(Blank, map[], Int)]));
      codec.unmarshalBody(k, []) == None
    ensures var types := OutputTypes(headersT, Struct(StructDecl("example", "Empty", [FieldDecl(Blank, map[], Int)])));
      && OkCode(types.body) == Success(StatusNoContent)
      && GetBody(codec, types.body, e.body) == Success([])
      && SetBodyAsWritten(codec, types, e, []).Failure?
      && SetBody(codec, types, e, []) == Success(e)
  {
    var d := StructDecl("example", "Empty", [FieldDecl(Blank, map[], Int)]);
    assert AnalyzePrefix(d, 1) == Success(AnalyzedStruct("Empty", "example", [], map[], map[], map[]));
    assert CountBound(d, 1) == 0;
  }

  /** A body type without analyzed fields keeps the output whatever bytes arrive. */
  lemma SetBodyIgnoresBytes(codec: Codec, types: OutputTypes, e: EndpointOutput, jsonBytes: Bytes)
    requires Analyze(types.body).Success? && |Analyze(types.body).value.fields| == 0
    ensures SetBody(codec, types, e, jsonBytes) == Success(e)
  {
    AnalyzedCount(types.body);
  }

  /** A struct value whose declared fields are all blank is the zero value. */
  lemma AllBlankIsZero(v: Value, k: Kind)
    requires k.Struct? && HasType(v, k)
    requires forall i :: 0 <= i < |k.decl.fields| ==> IsBlank(k.decl.fields[i])
    ensures v == ZeroOf(k)
  {
    assert v.items == ZeroOf(k).items;
  }

  /** Decoding an encoded body gives it back. */
  ghost predicate BodyRoundTrips(codec: Codec) {
    forall k: Kind, v: Value :: HasType(v, k) && codec.marshalBody(v).Some? ==>
      codec.unmarshalBody(k, codec.marshalBody(v).value) == Some(v)
  }

  /** The bytes GetBody sends, given to SetBody, set the body that was sent. */
  lemma GetBodySetBody(codec: Codec, types: OutputTypes, sent: EndpointOutput, e: EndpointOutput)
    requires BodyRoundTrips(codec)
    requires HasType(sent.body, types.body) && HasType(e.body, types.body)
    requires GetBody(codec, types.body, sent.body).Success?
    ensures SetBody(codec, types, e, GetBody(codec, types.body, sent.body).value) == Success(e.(body := sent.body))
  {
    AnalyzedCount(types.body);
    var d := types.body.decl;
    if CountBound(d, |d.fields|) == 0 {
      CountBoundZero(d, |d.fields|);
      AllBlankIsZero(sent.body, types.body);
      AllBlankIsZero(e.body, types.body);
    }
  }

  // ---------------------------------------------------------------------------
  // GetHeaders

  /** The header map after the first `n` declared fields: one formatted value per non-blank field. */
  function HeadersPrefix(codec: Codec, d: StructDecl, items: seq<Value>, n: nat): map<string, seq<string>>
    requires n <= |d.fields| && n <= |items|
    decreases n
  {
    if n == 0 then map[] else HeadersStep(codec, d.fields[n - 1], items[n - 1], HeadersPrefix(codec, d, items, n - 1))
  }

  /** One iteration of GetHeaders: a blank field is skipped, any other is written under its public name. */
  function HeadersStep(codec: Codec, f: FieldDecl, v: Value, acc: map<string, seq<string>>): map<string, seq<string>> {
    if IsBlank(f) then acc else acc[EffectiveName(f) := [codec.format(v)]]
  }

  /** GetHeaders: a headers type that is not a struct is refused. */
  function HeadersOf(codec: Codec, k: Kind, v: Value): Result<map<string, seq<string>>>
    requires Shaped(v, k)
  {
    if !k.Struct? then Failure(DeclarationError("expected output headers to be a struct"))
    else Success(HeadersPrefix(codec, k.decl, v.items, |k.decl.fields|))
  }

  /** GetHeaders, as the loop the Go code runs. */
  method GetHeaders(codec: Codec, k: Kind, v: Value) returns (r: Result<map<string, seq<string>>>)
    requires Shaped(v, k)
    ensures r == HeadersOf(codec, k, v)
  {
    var result: map<string, seq<string>> := map[];
    if !k.Struct? {
      return Failure(DeclarationError("expected output headers to be a struct"));
    }
    var headersType := k.decl;
    var numFields := |headersType.fields|;
    for i := 0 to numFields
      invariant result == HeadersPrefix(codec, headersType, v.items, i)
    {
      var field := headersType.fields[i];
      if field.name != Blank {
        var name := field.name;
        var nameOvrd := TagLookup(field, "name");
        if nameOvrd.Some? {
          name := nameOvrd.value;
        }
        result := result[name := [codec.format(v.items[i])]];
      }
    }
    return Success(result);
  }

  /** No non-blank field after `i` and before `n` reuses the public name of field `i`. */
  predicate LastWithName(d: StructDecl, i: nat, n: nat)
    requires i < n <= |d.fields|
  {
    forall j :: i < j < n && !IsBlank(d.fields[j]) ==> EffectiveName(d.fields[j]) != EffectiveName(d.fields[i])
  }

  /** Some non-blank field among the first `n` has the public name `key`. */
  predicate NamedBy(d: StructDecl, n: nat, key: string)
    requires n <= |d.fields|
  {
    exists i :: 0 <= i < n && !IsBlank(d.fields[i]) && EffectiveName(d.fields[i]) == key
  }

  /** The header map holds exactly the public names of the non-blank fields, each with one value. */
  lemma {:induction false} HeadersPrefixKeys(codec: Codec, d: StructDecl, items: seq<Value>, n: nat)
    requires n <= |d.fields| && n <= |items|
    ensures forall key :: key in HeadersPrefix(codec, d, items, n) <==> NamedBy(d, n, key)
    ensures forall key :: key in HeadersPrefix(codec, d, items, n) ==> |HeadersPrefix(codec, d, items, n)[key]| == 1
    decreases n
  {
    if n > 0 {
      HeadersPrefixKeys(codec, d, items, n - 1);
      forall key ensures NamedBy(d, n, key) <==> NamedBy(d, n - 1, key) || (!IsBlank(d.fields[n - 1]) && EffectiveName(d.fields[n - 1]) == key) {
        if NamedBy(d, n, key) && !NamedBy(d, n - 1, key) {
          var i :| 0 <= i < n && !IsBlank(d.fields[i]) && EffectiveName(d.fields[i]) == key;
          assert i == n - 1;
        }
      }
    }
  }

  /** A field whose public name no later field reuses holds its own formatted value. */
  lemma {:induction false} HeadersPrefixValues(codec: Codec, d: StructDecl, items: seq<Value>, n: nat)
    requires n <= |d.fields| && n <= |items|
    ensures forall i :: 0 <= i < n && !IsBlank(d.fields[i]) && LastWithName(d, i, n) ==>
      EffectiveName(d.fields[i]) in HeadersPrefix(codec, d, items, n) &&
      HeadersPrefix(codec, d, items, n)[EffectiveName(d.fields[i])] == [codec.format(items[i])]
    decreases n
  {
    if n > 0 {
      HeadersPrefixValues(codec, d, items, n - 1);
      forall i | 0 <= i < n - 1 && !IsBlank(d.fields[i]) && LastWithName(d, i, n)
        ensures LastWithName(d, i, n - 1)
      {
      }
    }
  }

  /** Analyzed lookup keys are distinct, so public names are too. */
  lemma AnalyzedNamesDistinct(k: Kind)
    requires Analyze(k).Success?
    ensures k.Struct? && EffectiveNamesDistinct(k.decl, |k.decl.fields|)
  {
    AnalyzeDescribes(k);
    var d := k.decl;
    var fs := BoundFields(d, |d.fields|);
    BoundFieldsComplete(d, |d.fields|);
    forall i, j | 0 <= i < j < |d.fields| && !IsBlank(d.fields[i]) && !IsBlank(d.fields[j])
      ensures EffectiveName(d.fields[i]) != EffectiveName(d.fields[j])
    {
      var p :| 0 <= p < |fs| && fs[p] == AnalyzeField(d, i);
      var q :| 0 <= q < |fs| && fs[q] == AnalyzeField(d, j);
      assert fs[p].index != fs[q].index;
      if p < q {
        assert fs[p].lkName != fs[q].lkName;
      } else {
        assert fs[q].lkName != fs[p].lkName;
      }
    }
  }

  /**
   * For an analyzable headers type, GetHeaders writes every non-blank field,
   * and only those, under its public name with its formatted value as the one
   * value.
   */
  lemma HeadersOfSpec(codec: Codec, k: Kind, v: Value)
    requires Shaped(v, k) && Analyze(k).Success?
    ensures k.Struct? && HeadersOf(codec, k, v).Success?
    ensures var m := HeadersOf(codec, k, v).value; var d := k.decl;
      && (forall key :: key in m <==> NamedBy(d, |d.fields|, key))
      && (forall i :: 0 <= i < |d.fields| && !IsBlank(d.fields[i]) ==>
            EffectiveName(d.fields[i]) in m && m[EffectiveName(d.fields[i])] == [codec.format(v.items[i])])
  {
    AnalyzedNamesDistinct(k);
    var d := k.decl;
    HeadersPrefixKeys(codec, d, v.items, |d.fields|);
    HeadersPrefixValues(codec, d, v.items, |d.fields|);
    forall i | 0 <= i < |d.fields| && !IsBlank(d.fields[i]) ensures LastWithName(d, i, |d.fields|) {
    }
  }

  // ---------------------------------------------------------------------------
  // SetHeaders

  /** The state of the header loop: the header items, and the required lookup keys not yet set. */
  datatype HeaderState = HeaderState(items: seq<Value>, requiredNotSet: set<string>)

  /** Every lookup key finds a field inside a struct of `n` fields. */
  predicate IndicesBelow(info: AnalyzedStruct, n: nat) {
    forall key :: key in info.fieldsByLKName ==> info.fieldsByLKName[key].index < n
  }

  /** The lookup keys of the required fields among `fs`. */
  function RequiredKeys(fs: seq<AnalyzedField>): set<string>
    decreases |fs|
  {
    if fs == [] then {}
    else RequiredKeys(fs[..|fs| - 1]) + (if fs[|fs| - 1].IsRequired() then {fs[|fs| - 1].lkName} else {})
  }

  lemma {:induction false} RequiredKeysSpec(fs: seq<AnalyzedField>)
    ensures forall x :: x in RequiredKeys(fs) <==> exists j :: 0 <= j < |fs| && fs[j].IsRequired() && fs[j].lkName == x
    decreases |fs|
  {
    if fs != [] {
      var p := fs[..|fs| - 1];
      RequiredKeysSpec(p);
      assert forall j :: 0 <= j < |p| ==> p[j] == fs[j];
      forall x | x in RequiredKeys(fs) ensures exists j :: 0 <= j < |fs| && fs[j].IsRequired() && fs[j].lkName == x {
        if x in RequiredKeys(p) {
          var j :| 0 <= j < |p| && p[j].IsRequired() && p[j].lkName == x;
          assert fs[j] == p[j];
        }
      }
      forall x | exists j :: 0 <= j < |fs| && fs[j].IsRequired() && fs[j].lkName == x ensures x in RequiredKeys(fs) {
        var j :| 0 <= j < |fs| && fs[j].IsRequired() && fs[j].lkName == x;
        if j < |p| {
          assert p[j].IsRequired() && p[j].lkName == x;
        }
      }
    }
  }

  /**
   * The assignment of a parsed header value as written: for a pointer field
   * the parser's result, a pointer to a pointer, is stored as it is, which
   * reflect refuses.
   */
  function AssignHeaderAsWritten(items: seq<Value>, field: AnalyzedField, parsed: Value): Result<seq<Value>>
    requires field.index < |items|
  {
    if field.isPointer then Failure(InternalError("reflect.Set: value of type **T is not assignable to type *T"))
    else Success(items[field.index := parsed])
  }

  /** One iteration of the inner loop as written: one value `v` of the header `k`. */
  function HeaderValueStepAsWritten(codec: Codec, info: AnalyzedStruct, k: string, v: string, st: HeaderState): Result<HeaderState>
    requires IndicesBelow(info, |st.items|)
  {
    var lkName := ToLower(k);
    if lkName !in info.fieldsByLKName then Success(st)
    else
      var field := info.fieldsByLKName[lkName];
      match codec.unmarshal(field.typ, v)
      case None => Failure(BadRequest("failed to parse header '" + k + "'"))
      case Some(parsed) =>
        var items :- AssignHeaderAsWritten(st.items, field, parsed);
        Success(HeaderState(items, st.requiredNotSet - {lkName}))
  }

  /**
   * One iteration of the inner loop, with the parsed value stored through
   * Assign as the input setters do: a header that names no field is ignored;
   * otherwise the value is parsed into the field's type, stored in the
   * field, and the field's key is no longer missing.
   */
  function HeaderValueStep(codec: Codec, info: AnalyzedStruct, k: string, v: string, st: HeaderState): (r: Result<HeaderState>)
    requires IndicesBelow(info, |st.items|)
    ensures r.Success? ==> |r.value.items| == |st.items|
    ensures ToLower(k) !in info.fieldsByLKName ==> r == Success(st)
    ensures ToLower(k) in info.fieldsByLKName ==>
      var f := info.fieldsByLKName[ToLower(k)];
      match codec.unmarshal(f.typ, v)
      case None => r.Failure? && r.error.BadRequest?
      case Some(parsed) => r == Success(HeaderState(st.items[f.index := parsed], st.requiredNotSet - {ToLower(k)}))
  {
    var lkName := ToLower(k);
    if lkName !in info.fieldsByLKName then Success(st)
    else
      var field := info.fieldsByLKName[lkName];
      match codec.unmarshal(field.typ, v)
      case None => Failure(BadRequest("failed to parse header '" + k + "'"))
      case Some(parsed) =>
        var items := Assign(st.items, field, Some(parsed)).value;
        Success(HeaderState(items, st.requiredNotSet - {lkName}))
  }

  /**
   * A pointer header field and a value its parser accepts: the iteration as
   * written fails, the corrected one stores the value, which GetPtr reads back.
   */
  lemma PointerHeaderPanics(codec: Codec, info: AnalyzedStruct, k: string, v: string, st: HeaderState)
    requires IndicesBelow(info, |st.items|)
    requires ToLower(k) in info.fieldsByLKName && info.fieldsByLKName[ToLower(k)].isPointer
    requires codec.unmarshal(info.fieldsByLKName[ToLower(k)].typ, v).Some?
    ensures HeaderValueStepAsWritten(codec, info, k, v, st).Failure?
    ensures HeaderValueStepAsWritten(codec, info, k, v, st).error.InternalError?
    ensures var f := info.fieldsByLKName[ToLower(k)]; var parsed := codec.unmarshal(f.typ, v).value;
      && HeaderValueStep(codec, info, k, v, st) == Success(HeaderState(st.items[f.index := parsed], st.requiredNotSet - {ToLower(k)}))
      && (parsed != Nil ==> GetPtr(st.items[f.index := parsed], f) == Some(parsed))
  {
  }

  /** The inner loop over the values of header `k`. */
  function ValuesFold(codec: Codec, info: AnalyzedStruct, k: string, vs: seq<string>, st: HeaderState): (r: Result<HeaderState>)
    requires IndicesBelow(info, |st.items|)
    ensures r.Success? ==> |r.value.items| == |st.items|
    decreases |vs|
  {
    if vs == [] then Success(st)
    else
      match ValuesFold(codec, info, k, vs[..|vs| - 1], st)
      case Failure(e) => Failure(e)
      case Success(acc) => HeaderValueStep(codec, info, k, vs[|vs| - 1], acc)
  }

  /** The outer loop, over the header names in the order `keys` lists them. */
  function KeysFold(codec: Codec, info: AnalyzedStruct, hdrs: map<string, seq<string>>, keys: seq<string>, st: HeaderState): (r: Result<HeaderState>)
    requires IndicesBelow(info, |st.items|)
    requires forall i :: 0 <= i < |keys| ==> keys[i] in hdrs
    ensures r.Success? ==> |r.value.items| == |st.items|
    decreases |keys|
  {
    if keys == [] then Success(st)
    else
      match KeysFold(codec, info, hdrs, keys[..|keys| - 1], st)
      case Failure(e) => Failure(e)
      case Success(acc) => ValuesFold(codec, info, keys[|keys| - 1], hdrs[keys[|keys| - 1]], acc)
  }

  /** The analysis facts the header loop relies on. */
  lemma AnalyzedLookup(k: Kind)
    requires Analyze(k).Success?
    ensures k.Struct? && IndicesBelow(Analyze(k).value, |k.decl.fields|)
    ensures LookupSound(Analyze(k).value, k.decl)
  {
    AnalyzeDescribes(k);
    var info := Analyze(k).value;
    var d := k.decl;
    IndexOfValues(info.fields, LKNameKey);
    BoundFieldsSound(d, |d.fields|);
    forall j | 0 <= j < |info.fields|
      ensures info.fields[j].lkName in info.fieldsByLKName && info.fieldsByLKName[info.fields[j].lkName] == info.fields[j]
    {
      LookupDistinct(info.fields, info.fields[j]);
    }
  }

  /** The field a lookup key finds is a bound one, and every bound field is found under its own key. */
  lemma AnalyzedLookupBound(k: Kind)
    requires Analyze(k).Success?
    ensures k.Struct?
    ensures forall key :: key in Analyze(k).value.fieldsByLKName ==>
              Analyze(k).value.fieldsByLKName[key].index < |k.decl.fields| &&
              !IsBlank(k.decl.fields[Analyze(k).value.fieldsByLKName[key].index])
    ensures forall i :: 0 <= i < |k.decl.fields| && !IsBlank(k.decl.fields[i]) ==>
              AnalyzeField(k.decl, i).lkName in Analyze(k).value.fieldsByLKName &&
              Analyze(k).value.fieldsByLKName[AnalyzeField(k.decl, i).lkName] == AnalyzeField(k.decl, i)
  {
    AnalyzeDescribes(k);
    var info := Analyze(k).value;
    var d := k.decl;
    IndexOfValues(info.fields, LKNameKey);
    BoundFieldsSound(d, |d.fields|);
    BoundFieldsComplete(d, |d.fields|);
    forall i | 0 <= i < |d.fields| && !IsBlank(d.fields[i])
      ensures AnalyzeField(d, i).lkName in info.fieldsByLKName && info.fieldsByLKName[AnalyzeField(d, i).lkName] == AnalyzeField(d, i)
    {
      LookupDistinct(info.fields, AnalyzeField(d, i));
    }
  }

  /**
   * Every lookup key finds a field of the struct analyzed at its own index
   * and carrying that key, and every analyzed field is found under its key.
   */
  ghost predicate LookupSound(info: AnalyzedStruct, d: StructDecl) {
    && (forall key :: key in info.fieldsByLKName ==>
          && info.fieldsByLKName[key].index < |d.fields|
          && info.fieldsByLKName[key] == AnalyzeField(d, info.fieldsByLKName[key].index)
          && info.fieldsByLKName[key].lkName == key)
    && (forall j :: 0 <= j < |info.fields| ==>
          info.fields[j].lkName in info.fieldsByLKName && info.fieldsByLKName[info.fields[j].lkName] == info.fields[j])
  }

  /**
   * SetHeaders, for the header names visited in the order `keys` lists them:
   * the headers type is analyzed, every value of every header that names a
   * field is parsed into it, and a required field no header names is an error.
   */
  function SetHeadersOf(codec: Codec, types: OutputTypes, e: EndpointOutput, hdrs: map<string, seq<string>>, keys: seq<string>): Result<EndpointOutput>
    requires Shaped(e.headers, types.headers)
    requires forall i :: 0 <= i < |keys| ==> keys[i] in hdrs
  {
    var info :- Analyze(types.headers);
    AnalyzedLookup(types.headers);
    var st :- KeysFold(codec, info, hdrs, keys, HeaderState(e.headers.items, RequiredKeys(info.fields)));
    if st.requiredNotSet != {} then Failure(BadRequest("required headers not set"))
    else Success(e.(headers := RecordVal(st.items)))
  }

  /** Some listing of a finite set. */
  ghost function ListOf(s: set<string>): (r: seq<string>)
    ensures Enumerates(r, s)
    decreases s
  {
    if s == {} then []
    else
      var x :| x in s;
      [x] + ListOf(s - {x})
  }

  lemma EnumeratesSnoc(keys: seq<string>, m: set<string>, k: string)
    requires Enumerates(keys, m) && k !in m
    ensures Enumerates(keys + [k], m + {k})
  {
    var keys' := keys + [k];
    forall x ensures x in keys' <==> x in m + {k} {
      if x in keys' && x != k {
        var i :| 0 <= i < |keys'| && keys'[i] == x;
        assert keys[i] == x;
      }
    }
  }

  lemma EnumeratesAppend(a: seq<string>, am: set<string>, b: seq<string>, bm: set<string>)
    requires Enumerates(a, am) && Enumerates(b, bm) && am !! bm
    ensures Enumerates(a + b, am + bm)
  {
    var c := a + b;
    forall i, j | 0 <= i < j < |c| ensures c[i] != c[j] {
      if i < |a| && |a| <= j {
        assert c[i] in am && c[j] == b[j - |a|] && c[j] in bm;
      }
    }
    forall x ensures x in c <==> x in am + bm {
      if x in c {
        var i :| 0 <= i < |c| && c[i] == x;
        if i < |a| { assert a[i] == x; } else { assert b[i - |a|] == x; }
      }
    }
  }

  /** Once the inner loop has failed it stays failed. */
  lemma {:induction false} ValuesSticks(codec: Codec, info: AnalyzedStruct, k: string, vs: seq<string>, st: HeaderState, n: nat)
    requires IndicesBelow(info, |st.items|)
    requires n <= |vs| && ValuesFold(codec, info, k, vs[..n], st).Failure?
    ensures ValuesFold(codec, info, k, vs, st) == ValuesFold(codec, info, k, vs[..n], st)
    decreases |vs| - n
  {
    if n < |vs| {
      assert vs[..n + 1][..n] == vs[..n];
      ValuesSticks(codec, info, k, vs, st, n + 1);
    } else {
      assert vs[..n] == vs;
    }
  }

  /** Once the outer loop has failed it stays failed, whatever names follow. */
  lemma {:induction false} KeysSticks(codec: Codec, info: AnalyzedStruct, hdrs: map<string, seq<string>>,
                                      keys: seq<string>, rest: seq<string>, st: HeaderState)
    requires IndicesBelow(info, |st.items|)
    requires forall i :: 0 <= i < |keys| ==> keys[i] in hdrs
    requires forall i :: 0 <= i < |rest| ==> rest[i] in hdrs
    requires KeysFold(codec, info, hdrs, keys, st).Failure?
    ensures forall i :: 0 <= i < |keys + rest| ==> (keys + rest)[i] in hdrs
    ensures KeysFold(codec, info, hdrs, keys + rest, st) == KeysFold(codec, info, hdrs, keys, st)
    decreases |rest|
  {
    if rest == [] {
      assert keys + rest == keys;
    } else {
      var p := rest[..|rest| - 1];
      KeysSticks(codec, info, hdrs, keys, p, st);
      assert (keys + rest)[..|keys + rest| - 1] == keys + p;
    }
  }

  /** The first loop of SetHeaders: the lookup keys of the required fields. */
  method CollectRequired(fields: seq<AnalyzedField>) returns (requiredNotSet: set<string>)
    ensures requiredNotSet == RequiredKeys(fields)
  {
    requiredNotSet := {};
    for j := 0 to |fields|
      invariant requiredNotSet == RequiredKeys(fields[..j])
    {
      assert fields[..j + 1][..j] == fields[..j];
      var field := fields[j];
      if field.IsRequired() {
        requiredNotSet := requiredNotSet + {field.lkName};
      }
    }
    assert fields[..|fields|] == fields;
  }

  /** The inner loop of SetHeaders, over the values of header `k`. */
  method SetHeaderValues(codec: Codec, structInfo: AnalyzedStruct, k: string, vs: seq<string>,
                         items0: seq<Value>, requiredNotSet0: set<string>)
    returns (r: Result<HeaderState>)
    requires IndicesBelow(structInfo, |items0|)
    ensures r == ValuesFold(codec, structInfo, k, vs, HeaderState(items0, requiredNotSet0))
  {
    ghost var st := HeaderState(items0, requiredNotSet0);
    var items := items0;
    var requiredNotSet := requiredNotSet0;
    for j := 0 to |vs|
      invariant |items| == |items0|
      invariant ValuesFold(codec, structInfo, k, vs[..j], st) == Success(HeaderState(items, requiredNotSet))
    {
      assert vs[..j + 1][..j] == vs[..j];
      var v := vs[j];
      var lkName := ToLower(k);
      if lkName !in structInfo.fieldsByLKName {
        continue; // ignore extra headers
      }
      var field := structInfo.fieldsByLKName[lkName];
      var newValue := codec.unmarshal(field.typ, v);
      if newValue.None? {
        ValuesSticks(codec, structInfo, k, vs, st, j + 1);
        return Failure(BadRequest("failed to parse header '" + k + "'"));
      }
      items := items[field.index := newValue.value];
      requiredNotSet := requiredNotSet - {lkName};
    }
    assert vs[..|vs|] == vs;
    return Success(HeaderState(items, requiredNotSet));
  }

  /** One more header name visited: the listing grows by it. */
  lemma VisitKey(hdrs: map<string, seq<string>>, keys: seq<string>, remaining: set<string>, k: string)
    requires remaining <= hdrs.Keys && k in remaining
    requires Enumerates(keys, hdrs.Keys - remaining)
    ensures Enumerates(keys + [k], hdrs.Keys - (remaining - {k}))
  {
    EnumeratesSnoc(keys, hdrs.Keys - remaining, k);
    assert (hdrs.Keys - remaining) + {k} == hdrs.Keys - (remaining - {k});
  }

  /** A failure at header `k`: any listing that visits the names seen so far, then `k`, then the rest, fails the same way. */
  lemma FailedListing(codec: Codec, info: AnalyzedStruct, hdrs: map<string, seq<string>>,
                      visited: seq<string>, remaining: set<string>, st0: HeaderState)
    returns (keys: seq<string>)
    requires IndicesBelow(info, |st0.items|)
    requires remaining <= hdrs.Keys
    requires Enumerates(visited, hdrs.Keys - remaining)
    requires forall i :: 0 <= i < |visited| ==> visited[i] in hdrs
    requires KeysFold(codec, info, hdrs, visited, st0).Failure?
    ensures Enumerates(keys, hdrs.Keys)
    ensures forall i :: 0 <= i < |keys| ==> keys[i] in hdrs
    ensures KeysFold(codec, info, hdrs, keys, st0) == KeysFold(codec, info, hdrs, visited, st0)
  {
    var rest := ListOf(remaining);
    EnumeratesAppend(visited, hdrs.Keys - remaining, rest, remaining);
    assert (hdrs.Keys - remaining) + remaining == hdrs.Keys;
    KeysSticks(codec, info, hdrs, visited, rest, st0);
    keys := visited + rest;
  }

  /**
   * SetHeaders, as the loops the Go code runs: the header names in map order,
   * and the values of each in turn. `keys` is the order the names were visited in.
   */
  method SetHeaders(codec: Codec, types: OutputTypes, e: EndpointOutput, hdrs: map<string, seq<string>>)
    returns (r: Result<EndpointOutput>, ghost keys: seq<string>)
    requires Shaped(e.headers, types.headers)
    ensures Enumerates(keys, hdrs.Keys)
    ensures r == SetHeadersOf(codec, types, e, hdrs, keys)
    ensures Analyze(types.headers).Failure? ==> r == Failure(Analyze(types.headers).error)
    ensures Analyze(types.headers).Success? ==>
      var info := Analyze(types.headers).value;
      && (r.Success? <==> ValuesParse(codec, info, hdrs) && RequiredCovered(info, hdrs))
      && (r.Failure? ==> r.error.BadRequest?)
    ensures r.Success? ==> r.value.body == e.body && |r.value.headers.items| == |e.headers.items|
  {
    var analyzed := Analyze(types.headers);
    if analyzed.Failure? {
      keys := ListOf(hdrs.Keys);
      return Failure(analyzed.error), keys;
    }
    var structInfo := analyzed.value;
    AnalyzedLookup(types.headers);
    var requiredNotSet := CollectRequired(structInfo.fields);
    var items := e.headers.items;
    ghost var st0 := HeaderState(items, requiredNotSet);
    keys := [];
    var remaining := hdrs.Keys;
    while remaining != {}
      invariant remaining <= hdrs.Keys
      invariant Enumerates(keys, hdrs.Keys - remaining)
      invariant forall i :: 0 <= i < |keys| ==> keys[i] in hdrs
      invariant |items| == |st0.items|
      invariant KeysFold(codec, structInfo, hdrs, keys, st0) == Success(HeaderState(items, requiredNotSet))
      decreases remaining
    {
      var k :| k in remaining;
      var vs := hdrs[k];
      VisitKey(hdrs, keys, remaining, k);
      assert (keys + [k])[..|keys|] == keys;
      var next := SetHeaderValues(codec, structInfo, k, vs, items, requiredNotSet);
      keys := keys + [k];
      remaining := remaining - {k};
      if next.Failure? {
        keys := FailedListing(codec, structInfo, hdrs, keys, remaining, st0);
        SetHeadersSpec(codec, types, e, hdrs, keys);
        return Failure(next.error), keys;
      }
      items := next.value.items;
      requiredNotSet := next.value.requiredNotSet;
    }
    assert hdrs.Keys - {} == hdrs.Keys;
    SetHeadersSpec(codec, types, e, hdrs, keys);
    if |requiredNotSet| > 0 {
      return Failure(BadRequest("required headers not set")), keys;
    }
    return Success(e.(headers := RecordVal(items))), keys;
  }

  // ---------------------------------------------------------------------------
  // What SetHeaders does, in any visiting order

  function Last(vs: seq<string>): string
    requires vs != []
  {
    vs[|vs| - 1]
  }

  /** Header `k` carries a value and, lower-cased, is the lookup key of a field. */
  predicate Names(info: AnalyzedStruct, hdrs: map<string, seq<string>>, k: string) {
    k in hdrs && |hdrs[k]| > 0 && ToLower(k) in info.fieldsByLKName
  }

  /** Header `k` names the field at `index`. */
  predicate SetsField(info: AnalyzedStruct, hdrs: map<string, seq<string>>, k: string, index: nat) {
    Names(info, hdrs, k) && info.fieldsByLKName[ToLower(k)].index == index
  }

  /** Some header names the field at `index`. */
  predicate SetBy(info: AnalyzedStruct, hdrs: map<string, seq<string>>, index: nat) {
    exists k :: k in hdrs && SetsField(info, hdrs, k, index)
  }

  /** Every value of the field `f` parses. */
  predicate ParsesAll(codec: Codec, f: AnalyzedField, vs: seq<string>) {
    forall t :: 0 <= t < |vs| ==> codec.unmarshal(f.typ, vs[t]).Some?
  }

  /** Every value of header `k`, when it names a field, parses into that field's type. */
  predicate KeyParses(codec: Codec, info: AnalyzedStruct, hdrs: map<string, seq<string>>, k: string) {
    k in hdrs && (ToLower(k) in info.fieldsByLKName ==> ParsesAll(codec, info.fieldsByLKName[ToLower(k)], hdrs[k]))
  }

  /** Every value of every header that names a field parses into that field's type. */
  predicate ValuesParse(codec: Codec, info: AnalyzedStruct, hdrs: map<string, seq<string>>) {
    forall k :: k in hdrs ==> KeyParses(codec, info, hdrs, k)
  }

  /** Every required field is named, up to case, by a header that carries a value. */
  predicate RequiredCovered(info: AnalyzedStruct, hdrs: map<string, seq<string>>) {
    forall j :: 0 <= j < |info.fields| && info.fields[j].IsRequired() ==>
      exists k :: k in hdrs && |hdrs[k]| > 0 && ToLower(k) == info.fields[j].lkName
  }

  /** No two header names differ only in case, as with canonicalised HTTP header names. */
  predicate CaseDistinct(hdrs: map<string, seq<string>>) {
    forall k1, k2 :: k1 in hdrs && k2 in hdrs && ToLower(k1) == ToLower(k2) ==> k1 == k2
  }

  /**
   * The inner loop fails exactly when a value of a header that names a field
   * does not parse; otherwise that field holds the last value, parsed, and its
   * key is no longer missing, and nothing else changes.
   */
  lemma {:induction false} ValuesFoldSpec(codec: Codec, info: AnalyzedStruct, k: string, vs: seq<string>, st: HeaderState)
    requires IndicesBelow(info, |st.items|)
    ensures ValuesFold(codec, info, k, vs, st).Success? <==>
      (ToLower(k) in info.fieldsByLKName ==> ParsesAll(codec, info.fieldsByLKName[ToLower(k)], vs))
    ensures var r := ValuesFold(codec, info, k, vs, st);
      r.Success? && (ToLower(k) !in info.fieldsByLKName || vs == []) ==> r.value == st
    ensures var r := ValuesFold(codec, info, k, vs, st);
      r.Success? && ToLower(k) in info.fieldsByLKName && vs != [] ==>
        var f := info.fieldsByLKName[ToLower(k)];
        && codec.unmarshal(f.typ, Last(vs)) == Some(r.value.items[f.index])
        && r.value.items == st.items[f.index := r.value.items[f.index]]
        && r.value.requiredNotSet == st.requiredNotSet - {ToLower(k)}
    decreases |vs|
  {
    if vs != [] {
      var p := vs[..|vs| - 1];
      ValuesFoldSpec(codec, info, k, p, st);
      if ToLower(k) in info.fieldsByLKName {
        var f := info.fieldsByLKName[ToLower(k)];
        assert ParsesAll(codec, f, vs) <==> ParsesAll(codec, f, p) && codec.unmarshal(f.typ, Last(vs)).Some? by {
          assert forall t :: 0 <= t < |p| ==> p[t] == vs[t];
        }
      }
    }
  }

  /** After the headers `ks`: a field none of them names keeps its value. */
  ghost predicate ItemsKept(info: AnalyzedStruct, hdrs: map<string, seq<string>>, ks: seq<string>, items0: seq<Value>, items: seq<Value>) {
    && |items| == |items0|
    && forall i :: 0 <= i < |items0| && (forall j :: 0 <= j < |ks| ==> !SetsField(info, hdrs, ks[j], i)) ==> items[i] == items0[i]
  }

  /** No header of `ks` after position `j` names the field at `index`. */
  predicate NotSetLater(info: AnalyzedStruct, hdrs: map<string, seq<string>>, ks: seq<string>, j: nat, index: nat) {
    forall j2 :: j < j2 < |ks| ==> !SetsField(info, hdrs, ks[j2], index)
  }

  /** After the headers `ks`: a field named by one of them and by no later one holds its last value, parsed. */
  ghost predicate ItemsSet(codec: Codec, info: AnalyzedStruct, hdrs: map<string, seq<string>>, ks: seq<string>, items: seq<Value>) {
    forall j ::
      (&& 0 <= j < |ks| && Names(info, hdrs, ks[j]) && info.fieldsByLKName[ToLower(ks[j])].index < |items|
       && NotSetLater(info, hdrs, ks, j, info.fieldsByLKName[ToLower(ks[j])].index)) ==>
      codec.unmarshal(info.fieldsByLKName[ToLower(ks[j])].typ, Last(hdrs[ks[j]])) == Some(items[info.fieldsByLKName[ToLower(ks[j])].index])
  }

  /**
   * After the headers `ks`: the missing keys are the required ones that no
   * header among them has named.
   */
  ghost predicate RequiredTracked(info: AnalyzedStruct, hdrs: map<string, seq<string>>, ks: seq<string>, r0: set<string>, rns: set<string>) {
    && rns <= r0
    && (forall j :: 0 <= j < |ks| && Names(info, hdrs, ks[j]) ==> ToLower(ks[j]) !in rns)
    && (forall x :: x in r0 && x !in rns ==> exists j :: 0 <= j < |ks| && Names(info, hdrs, ks[j]) && ToLower(ks[j]) == x)
  }

  /** One more header `k`: a field it does not name keeps its value. */
  lemma ItemsKeptStep(info: AnalyzedStruct, hdrs: map<string, seq<string>>, ks: seq<string>, k: string,
                      items0: seq<Value>, acc: seq<Value>, items: seq<Value>)
    requires ItemsKept(info, hdrs, ks, items0, acc)
    requires |items| == |acc|
    requires !Names(info, hdrs, k) ==> items == acc
    requires Names(info, hdrs, k) ==>
      && info.fieldsByLKName[ToLower(k)].index < |acc|
      && items == acc[info.fieldsByLKName[ToLower(k)].index := items[info.fieldsByLKName[ToLower(k)].index]]
    ensures ItemsKept(info, hdrs, ks + [k], items0, items)
  {
    var ks' := ks + [k];
    forall i | 0 <= i < |items0| && (forall j :: 0 <= j < |ks'| ==> !SetsField(info, hdrs, ks'[j], i))
      ensures items[i] == items0[i]
    {
      assert !SetsField(info, hdrs, ks'[|ks|], i);
      assert forall j :: 0 <= j < |ks| ==> ks'[j] == ks[j];
    }
  }

  /** One more header `k`: the field it names holds its last value; the others keep theirs. */
  lemma ItemsSetStep(codec: Codec, info: AnalyzedStruct, hdrs: map<string, seq<string>>, ks: seq<string>, k: string,
                     acc: seq<Value>, items: seq<Value>)
    requires ItemsSet(codec, info, hdrs, ks, acc)
    requires |items| == |acc|
    requires !Names(info, hdrs, k) ==> items == acc
    requires Names(info, hdrs, k) ==>
      && info.fieldsByLKName[ToLower(k)].index < |acc|
      && items == acc[info.fieldsByLKName[ToLower(k)].index := items[info.fieldsByLKName[ToLower(k)].index]]
      && codec.unmarshal(info.fieldsByLKName[ToLower(k)].typ, Last(hdrs[k])) == Some(items[info.fieldsByLKName[ToLower(k)].index])
    ensures ItemsSet(codec, info, hdrs, ks + [k], items)
  {
    var ks' := ks + [k];
    forall j | 0 <= j < |ks'| && Names(info, hdrs, ks'[j]) && info.fieldsByLKName[ToLower(ks'[j])].index < |items| &&
        NotSetLater(info, hdrs, ks', j, info.fieldsByLKName[ToLower(ks'[j])].index)
      ensures codec.unmarshal(info.fieldsByLKName[ToLower(ks'[j])].typ, Last(hdrs[ks'[j]])) == Some(items[info.fieldsByLKName[ToLower(ks'[j])].index])
    {
      if j < |ks| {
        var idx := info.fieldsByLKName[ToLower(ks[j])].index;
        assert !SetsField(info, hdrs, ks'[|ks|], idx);
        assert forall j2 :: j < j2 < |ks| ==> ks'[j2] == ks[j2];
        assert NotSetLater(info, hdrs, ks, j, idx);
        assert items[idx] == acc[idx];
      }
    }
  }

  /** One more header `k`: the key of the field it names is no longer missing. */
  lemma RequiredStep(info: AnalyzedStruct, hdrs: map<string, seq<string>>, ks: seq<string>, k: string,
                     r0: set<string>, acc: set<string>, rns: set<string>)
    requires RequiredTracked(info, hdrs, ks, r0, acc)
    requires !Names(info, hdrs, k) ==> rns == acc
    requires Names(info, hdrs, k) ==> rns == acc - {ToLower(k)}
    ensures RequiredTracked(info, hdrs, ks + [k], r0, rns)
  {
    var ks' := ks + [k];
    assert forall j :: 0 <= j < |ks| ==> ks'[j] == ks[j];
    forall x | x in r0 && x !in rns
      ensures exists j :: 0 <= j < |ks'| && Names(info, hdrs, ks'[j]) && ToLower(ks'[j]) == x
    {
      if x in acc {
        assert Names(info, hdrs, ks'[|ks|]) && ToLower(ks'[|ks|]) == x;
      } else {
        var j :| 0 <= j < |ks| && Names(info, hdrs, ks[j]) && ToLower(ks[j]) == x;
        assert ks'[j] == ks[j];
      }
    }
  }

  /**
   * The outer loop over the headers `ks` fails exactly when a value of one of
   * them does not parse, and otherwise leaves the state the three predicates
   * above describe.
   */
  lemma {:induction false} KeysFoldSpec(codec: Codec, info: AnalyzedStruct, hdrs: map<string, seq<string>>, ks: seq<string>, st0: HeaderState)
    requires IndicesBelow(info, |st0.items|)
    requires forall i :: 0 <= i < |ks| ==> ks[i] in hdrs
    ensures KeysFold(codec, info, hdrs, ks, st0).Success? <==> forall j :: 0 <= j < |ks| ==> KeyParses(codec, info, hdrs, ks[j])
    ensures var r := KeysFold(codec, info, hdrs, ks, st0);
      r.Success? ==>
        && ItemsKept(info, hdrs, ks, st0.items, r.value.items)
        && ItemsSet(codec, info, hdrs, ks, r.value.items)
        && RequiredTracked(info, hdrs, ks, st0.requiredNotSet, r.value.requiredNotSet)
    decreases |ks|
  {
    if ks != [] {
      var p := ks[..|ks| - 1];
      var k := ks[|ks| - 1];
      assert ks == p + [k];
      KeysFoldSpec(codec, info, hdrs, p, st0);
      assert (forall j :: 0 <= j < |ks| ==> KeyParses(codec, info, hdrs, ks[j])) <==>
        (forall j :: 0 <= j < |p| ==> KeyParses(codec, info, hdrs, p[j])) && KeyParses(codec, info, hdrs, k) by {
        assert forall j :: 0 <= j < |p| ==> p[j] == ks[j];
      }
      var pr := KeysFold(codec, info, hdrs, p, st0);
      if pr.Success? {
        var acc := pr.value;
        ValuesFoldSpec(codec, info, k, hdrs[k], acc);
        var r := KeysFold(codec, info, hdrs, ks, st0);
        if r.Success? {
          ItemsKeptStep(info, hdrs, p, k, st0.items, acc.items, r.value.items);
          ItemsSetStep(codec, info, hdrs, p, k, acc.items, r.value.items);
          RequiredStep(info, hdrs, p, k, st0.requiredNotSet, acc.requiredNotSet, r.value.requiredNotSet);
        }
      }
    }
  }

  /** With every header visited, the missing keys are empty exactly when every required field is named. */
  lemma RequiredDone(info: AnalyzedStruct, d: StructDecl, hdrs: map<string, seq<string>>, keys: seq<string>, rns: set<string>)
    requires LookupSound(info, d)
    requires Enumerates(keys, hdrs.Keys)
    requires RequiredTracked(info, hdrs, keys, RequiredKeys(info.fields), rns)
    ensures rns == {} <==> RequiredCovered(info, hdrs)
  {
    RequiredKeysSpec(info.fields);
    var fs := info.fields;
    if rns == {} {
      forall j | 0 <= j < |fs| && fs[j].IsRequired()
        ensures exists k :: k in hdrs && |hdrs[k]| > 0 && ToLower(k) == fs[j].lkName
      {
        assert fs[j].lkName in RequiredKeys(fs);
        var j' :| 0 <= j' < |keys| && Names(info, hdrs, keys[j']) && ToLower(keys[j']) == fs[j].lkName;
        assert keys[j'] in hdrs;
      }
    } else {
      var x :| x in rns;
      var j :| 0 <= j < |fs| && fs[j].IsRequired() && fs[j].lkName == x;
    }
  }

  /** With every header visited, a field no header names keeps its value. */
  lemma KeptDone(info: AnalyzedStruct, hdrs: map<string, seq<string>>, keys: seq<string>, items0: seq<Value>, items: seq<Value>)
    requires Enumerates(keys, hdrs.Keys)
    requires ItemsKept(info, hdrs, keys, items0, items)
    ensures forall i :: 0 <= i < |items0| && !SetBy(info, hdrs, i) ==> items[i] == items0[i]
  {
    forall i | 0 <= i < |items0| && !SetBy(info, hdrs, i) ensures items[i] == items0[i] {
      forall j | 0 <= j < |keys| ensures !SetsField(info, hdrs, keys[j], i) {
        assert keys[j] in hdrs;
      }
    }
  }

  /**
   * With every header visited and no two header names equal up to case, each
   * field a header names holds that header's last value, parsed.
   */
  lemma SetDone(codec: Codec, info: AnalyzedStruct, d: StructDecl, hdrs: map<string, seq<string>>, keys: seq<string>, items: seq<Value>)
    requires LookupSound(info, d) && IndicesBelow(info, |items|)
    requires Enumerates(keys, hdrs.Keys) && CaseDistinct(hdrs)
    requires ItemsSet(codec, info, hdrs, keys, items)
    ensures forall k :: Names(info, hdrs, k) ==>
      codec.unmarshal(info.fieldsByLKName[ToLower(k)].typ, Last(hdrs[k])) == Some(items[info.fieldsByLKName[ToLower(k)].index])
  {
    forall k | Names(info, hdrs, k)
      ensures codec.unmarshal(info.fieldsByLKName[ToLower(k)].typ, Last(hdrs[k])) == Some(items[info.fieldsByLKName[ToLower(k)].index])
    {
      assert k in keys;
      var j :| 0 <= j < |keys| && keys[j] == k;
      var f := info.fieldsByLKName[ToLower(k)];
      forall j2 | j < j2 < |keys| ensures !SetsField(info, hdrs, keys[j2], f.index) {
        assert keys[j2] in hdrs;
      }
      assert NotSetLater(info, hdrs, keys, j, f.index);
    }
  }

  /** The outer loop over all headers, in the terms SetHeadersSpec states. */
  lemma FoldDone(codec: Codec, info: AnalyzedStruct, d: StructDecl, hdrs: map<string, seq<string>>, keys: seq<string>, items0: seq<Value>)
    requires LookupSound(info, d) && IndicesBelow(info, |items0|)
    requires Enumerates(keys, hdrs.Keys)
    requires forall i :: 0 <= i < |keys| ==> keys[i] in hdrs
    ensures var r := KeysFold(codec, info, hdrs, keys, HeaderState(items0, RequiredKeys(info.fields)));
      && (r.Success? <==> ValuesParse(codec, info, hdrs))
      && (r.Failure? ==> r.error.BadRequest?)
      && (r.Success? ==> (r.value.requiredNotSet == {} <==> RequiredCovered(info, hdrs)))
      && (r.Success? ==> forall i :: 0 <= i < |items0| && !SetBy(info, hdrs, i) ==> r.value.items[i] == items0[i])
      && (r.Success? && CaseDistinct(hdrs) ==> forall k :: Names(info, hdrs, k) ==>
            codec.unmarshal(info.fieldsByLKName[ToLower(k)].typ, Last(hdrs[k])) == Some(r.value.items[info.fieldsByLKName[ToLower(k)].index]))
  {
    FoldOutcome(codec, info, hdrs, keys, items0);
    if KeysFold(codec, info, hdrs, keys, HeaderState(items0, RequiredKeys(info.fields))).Success? {
      FoldSuccess(codec, info, d, hdrs, keys, items0);
    }
  }

  /** The outer loop succeeds exactly when every value parses, and fails only with a bad request. */
  lemma FoldOutcome(codec: Codec, info: AnalyzedStruct, hdrs: map<string, seq<string>>, keys: seq<string>, items0: seq<Value>)
    requires IndicesBelow(info, |items0|)
    requires Enumerates(keys, hdrs.Keys)
    requires forall i :: 0 <= i < |keys| ==> keys[i] in hdrs
    ensures var r := KeysFold(codec, info, hdrs, keys, HeaderState(items0, RequiredKeys(info.fields)));
      && (r.Success? <==> ValuesParse(codec, info, hdrs))
      && (r.Failure? ==> r.error.BadRequest?)
  {
    var st0 := HeaderState(items0, RequiredKeys(info.fields));
    KeysFoldSpec(codec, info, hdrs, keys, st0);
    assert (forall j :: 0 <= j < |keys| ==> KeyParses(codec, info, hdrs, keys[j])) <==> ValuesParse(codec, info, hdrs) by {
      forall k | k in hdrs ensures exists j :: 0 <= j < |keys| && keys[j] == k {
        assert k in keys;
      }
    }
    KeysFoldBadRequest(codec, info, hdrs, keys, st0);
  }

  /** What a successful outer loop leaves: the missing keys, the untouched fields and the set ones. */
  lemma FoldSuccess(codec: Codec, info: AnalyzedStruct, d: StructDecl, hdrs: map<string, seq<string>>, keys: seq<string>, items0: seq<Value>)
    requires LookupSound(info, d) && IndicesBelow(info, |items0|)
    requires Enumerates(keys, hdrs.Keys)
    requires forall i :: 0 <= i < |keys| ==> keys[i] in hdrs
    requires KeysFold(codec, info, hdrs, keys, HeaderState(items0, RequiredKeys(info.fields))).Success?
    ensures var st := KeysFold(codec, info, hdrs, keys, HeaderState(items0, RequiredKeys(info.fields))).value;
      && (st.requiredNotSet == {} <==> RequiredCovered(info, hdrs))
      && (forall i :: 0 <= i < |items0| && !SetBy(info, hdrs, i) ==> st.items[i] == items0[i])
      && (CaseDistinct(hdrs) ==> forall k :: Names(info, hdrs, k) ==>
            codec.unmarshal(info.fieldsByLKName[ToLower(k)].typ, Last(hdrs[k])) == Some(st.items[info.fieldsByLKName[ToLower(k)].index]))
  {
    var st0 := HeaderState(items0, RequiredKeys(info.fields));
    KeysFoldSpec(codec, info, hdrs, keys, st0);
    var st := KeysFold(codec, info, hdrs, keys, st0).value;
    RequiredDone(info, d, hdrs, keys, st.requiredNotSet);
    KeptDone(info, hdrs, keys, st0.items, st.items);
    if CaseDistinct(hdrs) {
      SetDone(codec, info, d, hdrs, keys, st.items);
    }
  }

  /** The header loops only ever fail with a bad request. */
  lemma {:induction false} KeysFoldBadRequest(codec: Codec, info: AnalyzedStruct, hdrs: map<string, seq<string>>, keys: seq<string>, st: HeaderState)
    requires IndicesBelow(info, |st.items|)
    requires forall i :: 0 <= i < |keys| ==> keys[i] in hdrs
    ensures KeysFold(codec, info, hdrs, keys, st).Failure? ==> KeysFold(codec, info, hdrs, keys, st).error.BadRequest?
    decreases |keys|
  {
    if keys != [] {
      var p := keys[..|keys| - 1];
      KeysFoldBadRequest(codec, info, hdrs, p, st);
      var pr := KeysFold(codec, info, hdrs, p, st);
      if pr.Success? {
        ValuesFoldBadRequest(codec, info, keys[|keys| - 1], hdrs[keys[|keys| - 1]], pr.value);
      }
    }
  }

  lemma {:induction false} ValuesFoldBadRequest(codec: Codec, info: AnalyzedStruct, k: string, vs: seq<string>, st: HeaderState)
    requires IndicesBelow(info, |st.items|)
    ensures ValuesFold(codec, info, k, vs, st).Failure? ==> ValuesFold(codec, info, k, vs, st).error.BadRequest?
    decreases |vs|
  {
    if vs != [] {
      ValuesFoldBadRequest(codec, info, k, vs[..|vs| - 1], st);
    }
  }

  /**
   * SetHeaders, whatever order the names are visited in, succeeds exactly when
   * every value of every header that names a field parses into that field and
   * every required field is named by a header with a value; it then leaves
   * the body and every field no header names as they were, and, when no two
   * names differ only in case, sets each named field to its header's last
   * value, parsed. A failure is a bad request.
   */
  lemma SetHeadersSpec(codec: Codec, types: OutputTypes, e: EndpointOutput, hdrs: map<string, seq<string>>, keys: seq<string>)
    requires Shaped(e.headers, types.headers)
    requires Enumerates(keys, hdrs.Keys)
    requires Analyze(types.headers).Success?
    ensures types.headers.Struct? && IndicesBelow(Analyze(types.headers).value, |e.headers.items|)
    ensures forall i :: 0 <= i < |keys| ==> keys[i] in hdrs
    ensures var info := Analyze(types.headers).value; var r := SetHeadersOf(codec, types, e, hdrs, keys);
      && (r.Success? <==> ValuesParse(codec, info, hdrs) && RequiredCovered(info, hdrs))
      && (r.Failure? ==> r.error.BadRequest?)
    ensures var r := SetHeadersOf(codec, types, e, hdrs, keys);
      r.Success? ==> r.value.body == e.body && r.value.headers.RecordVal? && |r.value.headers.items| == |e.headers.items|
    ensures var info := Analyze(types.headers).value; var r := SetHeadersOf(codec, types, e, hdrs, keys);
      r.Success? ==> forall i :: 0 <= i < |e.headers.items| && !SetBy(info, hdrs, i) ==> r.value.headers.items[i] == e.headers.items[i]
    ensures var info := Analyze(types.headers).value; var r := SetHeadersOf(codec, types, e, hdrs, keys);
      r.Success? && CaseDistinct(hdrs) ==> forall k :: Names(info, hdrs, k) ==>
        codec.unmarshal(info.fieldsByLKName[ToLower(k)].typ, Last(hdrs[k])) == Some(r.value.headers.items[info.fieldsByLKName[ToLower(k)].index])
  {
    AnalyzedLookup(types.headers);
    assert forall i :: 0 <= i < |keys| ==> keys[i] in keys;
    FoldDone(codec, Analyze(types.headers).value, types.headers.decl, hdrs, keys, e.headers.items);
  }

  // ---------------------------------------------------------------------------
  // SetAll and ToPayload

  /** SetAll, for the header names visited in the order `keys` lists them: the headers, then the body. */
  function SetAllOf(codec: Codec, types: OutputTypes, e: EndpointOutput, hdrs: map<string, seq<string>>,
                    jsonBodyBytes: Bytes, keys: seq<string>): Result<EndpointOutput>
    requires Shaped(e.headers, types.headers)
    requires forall i :: 0 <= i < |keys| ==> keys[i] in hdrs
  {
    match SetHeadersOf(codec, types, e, hdrs, keys)
    case Failure(err) => Failure(Wrap("failed to set headers", err))
    case Success(res) =>
      match SetBody(codec, types, res, jsonBodyBytes)
      case Failure(err) => Failure(Wrap("failed to set body", err))
      case Success(res') => Success(res')
  }

  /** SetAll: SetHeaders, then SetBody on its result. */
  method SetAll(codec: Codec, types: OutputTypes, e: EndpointOutput, hdrs: map<string, seq<string>>, jsonBodyBytes: Bytes)
    returns (r: Result<EndpointOutput>, ghost keys: seq<string>)
    requires Shaped(e.headers, types.headers)
    ensures Enumerates(keys, hdrs.Keys)
    ensures forall i :: 0 <= i < |keys| ==> keys[i] in hdrs
    ensures r == SetAllOf(codec, types, e, hdrs, jsonBodyBytes, keys)
    ensures Analyze(types.headers).Failure? ==> r.Failure?
    ensures r.Success? ==>
      && Analyze(types.headers).Success?
      && ValuesParse(codec, Analyze(types.headers).value, hdrs)
      && RequiredCovered(Analyze(types.headers).value, hdrs)
  {
    var res;
    res, keys := SetHeaders(codec, types, e, hdrs);
    assert forall i :: 0 <= i < |keys| ==> keys[i] in keys;
    if res.Failure? {
      return Failure(Wrap("failed to set headers", res.error)), keys;
    }
    var res' := SetBody(codec, types, res.value, jsonBodyBytes);
    if res'.Failure? {
      return Failure(Wrap("failed to set body", res'.error)), keys;
    }
    return res', keys;
  }

  /** ToPayload: the body bytes, then the header map. */
  function OutputPayloadOf(codec: Codec, types: OutputTypes, e: EndpointOutput): Result<OutputPayload>
    requires Shaped(e.headers, types.headers)
  {
    match GetBody(codec, types.body, e.body)
    case Failure(err) => Failure(Wrap("failed to get body", err))
    case Success(bodyBytes) =>
      var headers :- HeadersOf(codec, types.headers, e.headers);
      Success(OutputPayload(headers, bodyBytes))
  }

  method ToPayload(codec: Codec, types: OutputTypes, e: EndpointOutput) returns (r: Result<OutputPayload>)
    requires Shaped(e.headers, types.headers)
    ensures r == OutputPayloadOf(codec, types, e)
  {
    var bodyBytes := GetBody(codec, types.body, e.body);
    if bodyBytes.Failure? {
      return Failure(Wrap("failed to get body", bodyBytes.error));
    }
    var headers :- GetHeaders(codec, types.headers, e.headers);
    return Success(OutputPayload(headers, bodyBytes.value));
  }

  // ---------------------------------------------------------------------------
  // Round trips

  /** Parsing a formatted value gives it back, for every kind that is not a pointer. */
  ghost predicate FormatRoundTrips(codec: Codec) {
    forall k: Kind, v: Value :: HasType(v, k) && !k.Ptr? ==> codec.unmarshal(k, codec.format(v)) == Some(v)
  }

  /**
   * No non-blank header field is a pointer, and each public name is its own
   * lookup key up to case (no dash is inserted into it).
   */
  predicate PlainHeaders(d: StructDecl) {
    forall i :: 0 <= i < |d.fields| && !IsBlank(d.fields[i]) ==>
      !d.fields[i].kind.Ptr? && ToLower(EffectiveName(d.fields[i])) == Kebab(EffectiveName(d.fields[i]))
  }

  /** GetHeaders sends the non-blank field `i` under a name SetHeaders looks up as that field. */
  lemma SentHeaderNamesField(codec: Codec, k: Kind, v: Value, i: nat)
    requires Shaped(v, k) && Analyze(k).Success?
    requires k.Struct? && PlainHeaders(k.decl)
    requires i < |k.decl.fields| && !IsBlank(k.decl.fields[i])
    ensures var hdrs := HeadersOf(codec, k, v).value; var key := EffectiveName(k.decl.fields[i]);
      && key in hdrs && hdrs[key] == [codec.format(v.items[i])]
      && ToLower(key) in Analyze(k).value.fieldsByLKName
      && Analyze(k).value.fieldsByLKName[ToLower(key)] == AnalyzeField(k.decl, i)
  {
    HeadersOfSpec(codec, k, v);
    AnalyzedLookupBound(k);
  }

  /** A header map GetHeaders sent parses, covers every required field and has no two names equal up to case. */
  lemma SentHeadersAccepted(codec: Codec, k: Kind, v: Value)
    requires FormatRoundTrips(codec)
    requires Analyze(k).Success? && HasType(v, k)
    requires k.Struct? && PlainHeaders(k.decl)
    ensures HeadersOf(codec, k, v).Success?
    ensures |v.items| == |k.decl.fields| && IndicesBelow(Analyze(k).value, |k.decl.fields|)
    ensures var hdrs := HeadersOf(codec, k, v).value; var info := Analyze(k).value;
      && ValuesParse(codec, info, hdrs) && RequiredCovered(info, hdrs) && CaseDistinct(hdrs)
      && (forall key :: Names(info, hdrs, key) ==>
            codec.unmarshal(info.fieldsByLKName[ToLower(key)].typ, Last(hdrs[key])) == Some(v.items[info.fieldsByLKName[ToLower(key)].index]))
  {
    AnalyzedLookup(k);
    SentHeadersParse(codec, k, v);
    SentHeadersCover(codec, k, v);
    SentHeadersDistinct(codec, k, v);
  }

  /** Every value GetHeaders sent parses back into the field it came from. */
  lemma SentHeadersParse(codec: Codec, k: Kind, v: Value)
    requires FormatRoundTrips(codec)
    requires Analyze(k).Success? && HasType(v, k)
    requires k.Struct? && PlainHeaders(k.decl)
    ensures HeadersOf(codec, k, v).Success?
    ensures |v.items| == |k.decl.fields| && IndicesBelow(Analyze(k).value, |k.decl.fields|)
    ensures var hdrs := HeadersOf(codec, k, v).value; var info := Analyze(k).value;
      && ValuesParse(codec, info, hdrs)
      && (forall key :: Names(info, hdrs, key) ==>
            codec.unmarshal(info.fieldsByLKName[ToLower(key)].typ, Last(hdrs[key])) == Some(v.items[info.fieldsByLKName[ToLower(key)].index]))
  {
    HeadersOfSpec(codec, k, v);
    AnalyzedLookup(k);
    var hdrs := HeadersOf(codec, k, v).value;
    var info := Analyze(k).value;
    forall key | key in hdrs
      ensures KeyParses(codec, info, hdrs, key)
      ensures Names(info, hdrs, key) ==>
        codec.unmarshal(info.fieldsByLKName[ToLower(key)].typ, Last(hdrs[key])) == Some(v.items[info.fieldsByLKName[ToLower(key)].index])
    {
      SentKeyParses(codec, k, v, key);
    }
  }

  /** A name GetHeaders sent names the field it came from, and its value parses back into it. */
  lemma SentKeyParses(codec: Codec, k: Kind, v: Value, key: string)
    requires FormatRoundTrips(codec)
    requires Analyze(k).Success? && HasType(v, k)
    requires k.Struct? && PlainHeaders(k.decl)
    requires HeadersOf(codec, k, v).Success? && key in HeadersOf(codec, k, v).value
    requires IndicesBelow(Analyze(k).value, |v.items|)
    ensures var hdrs := HeadersOf(codec, k, v).value; var info := Analyze(k).value;
      && KeyParses(codec, info, hdrs, key)
      && (Names(info, hdrs, key) ==>
            codec.unmarshal(info.fieldsByLKName[ToLower(key)].typ, Last(hdrs[key])) == Some(v.items[info.fieldsByLKName[ToLower(key)].index]))
  {
    var d := k.decl;
    assert NamedBy(d, |d.fields|, key) by {
      HeadersOfSpec(codec, k, v);
    }
    var i :| 0 <= i < |d.fields| && !IsBlank(d.fields[i]) && EffectiveName(d.fields[i]) == key;
    SentHeaderParses(codec, k, v, i);
  }

  /** The value GetHeaders sent for the non-blank field `i` parses back into that field. */
  lemma SentHeaderParses(codec: Codec, k: Kind, v: Value, i: nat)
    requires FormatRoundTrips(codec)
    requires Analyze(k).Success? && HasType(v, k)
    requires k.Struct? && PlainHeaders(k.decl)
    requires i < |k.decl.fields| && !IsBlank(k.decl.fields[i])
    ensures var hdrs := HeadersOf(codec, k, v).value; var key := EffectiveName(k.decl.fields[i]);
      && key in hdrs && hdrs[key] == [codec.format(v.items[i])]
      && ToLower(key) in Analyze(k).value.fieldsByLKName
      && Analyze(k).value.fieldsByLKName[ToLower(key)] == AnalyzeField(k.decl, i)
      && codec.unmarshal(AnalyzeField(k.decl, i).typ, codec.format(v.items[i])) == Some(v.items[i])
  {
    SentHeaderNamesField(codec, k, v, i);
    var f := k.decl.fields[i];
    assert HasType(v.items[i], f.kind) && !f.kind.Ptr?;
  }

  /** GetHeaders sends every required field under a name that is its lookup key up to case. */
  lemma SentHeadersCover(codec: Codec, k: Kind, v: Value)
    requires Analyze(k).Success? && HasType(v, k)
    requires k.Struct? && PlainHeaders(k.decl)
    ensures HeadersOf(codec, k, v).Success?
    ensures RequiredCovered(Analyze(k).value, HeadersOf(codec, k, v).value)
  {
    var d := k.decl;
    var info := Analyze(k).value;
    HeadersOfSpec(codec, k, v);
    var hdrs := HeadersOf(codec, k, v).value;
    AnalyzeDescribes(k);
    BoundFieldsSound(d, |d.fields|);
    forall j | 0 <= j < |info.fields| && info.fields[j].IsRequired()
      ensures exists key :: key in hdrs && |hdrs[key]| > 0 && ToLower(key) == info.fields[j].lkName
    {
      var f := info.fields[j];
      assert f in BoundFields(d, |d.fields|);
      SentHeaderNamesField(codec, k, v, f.index);
    }
  }

  /** No two names GetHeaders sends are equal up to case. */
  lemma SentHeadersDistinct(codec: Codec, k: Kind, v: Value)
    requires Analyze(k).Success? && HasType(v, k)
    requires k.Struct? && PlainHeaders(k.decl)
    ensures HeadersOf(codec, k, v).Success?
    ensures CaseDistinct(HeadersOf(codec, k, v).value)
  {
    var d := k.decl;
    HeadersOfSpec(codec, k, v);
    var hdrs := HeadersOf(codec, k, v).value;
    forall k1, k2 | k1 in hdrs && k2 in hdrs && ToLower(k1) == ToLower(k2) ensures k1 == k2 {
      var i1 :| 0 <= i1 < |d.fields| && !IsBlank(d.fields[i1]) && EffectiveName(d.fields[i1]) == k1;
      var i2 :| 0 <= i2 < |d.fields| && !IsBlank(d.fields[i2]) && EffectiveName(d.fields[i2]) == k2;
      SentHeaderNamesField(codec, k, v, i1);
      SentHeaderNamesField(codec, k, v, i2);
    }
  }

  /**
   * The header map GetHeaders sends, given to SetHeaders in any visiting
   * order, sets the headers that were sent.
   */
  lemma GetHeadersSetHeaders(codec: Codec, types: OutputTypes, sent: EndpointOutput, e: EndpointOutput, keys: seq<string>)
    requires FormatRoundTrips(codec)
    requires Analyze(types.headers).Success? && types.headers.Struct? && PlainHeaders(types.headers.decl)
    requires HasType(sent.headers, types.headers) && HasType(e.headers, types.headers)
    requires HeadersOf(codec, types.headers, sent.headers).Success?
    requires Enumerates(keys, HeadersOf(codec, types.headers, sent.headers).value.Keys)
    ensures forall i :: 0 <= i < |keys| ==> keys[i] in HeadersOf(codec, types.headers, sent.headers).value
    ensures SetHeadersOf(codec, types, e, HeadersOf(codec, types.headers, sent.headers).value, keys)
              == Success(e.(headers := sent.headers))
  {
    var hdrs := HeadersOf(codec, types.headers, sent.headers).value;
    var d := types.headers.decl;
    var info := Analyze(types.headers).value;
    SentHeadersAccepted(codec, types.headers, sent.headers);
    SetHeadersSpec(codec, types, e, hdrs, keys);
    AnalyzedLookupBound(types.headers);
    var r := SetHeadersOf(codec, types, e, hdrs, keys).value;
    forall i | 0 <= i < |d.fields| ensures r.headers.items[i] == sent.headers.items[i] {
      if IsBlank(d.fields[i]) {
        assert !SetBy(info, hdrs, i);
      } else {
        SentHeaderNamesField(codec, types.headers, sent.headers, i);
        assert Names(info, hdrs, EffectiveName(d.fields[i]));
      }
    }
    assert r.headers.items == sent.headers.items;
  }

  /** The values GetHeaders, then SetBody, send, given to SetAll, set the output that was sent. */
  lemma ToPayloadSetAll(codec: Codec, types: OutputTypes, sent: EndpointOutput, e: EndpointOutput, keys: seq<string>)
    requires FormatRoundTrips(codec) && BodyRoundTrips(codec)
    requires Analyze(types.headers).Success? && types.headers.Struct? && PlainHeaders(types.headers.decl)
    requires HasType(sent.headers, types.headers) && HasType(e.headers, types.headers)
    requires HasType(sent.body, types.body) && HasType(e.body, types.body)
    requires OutputPayloadOf(codec, types, sent).Success?
    requires Enumerates(keys, OutputPayloadOf(codec, types, sent).value.headers.Keys)
    ensures forall i :: 0 <= i < |keys| ==> keys[i] in OutputPayloadOf(codec, types, sent).value.headers
    ensures var p := OutputPayloadOf(codec, types, sent).value;
      SetAllOf(codec, types, e, p.headers, p.body, keys) == Success(sent)
  {
    GetHeadersSetHeaders(codec, types, sent, e, keys);
    GetBodySetBody(codec, types, sent, e.(headers := sent.headers));
  }

  /** A headers type with one camel-case field and no name tag. */
  function CamelHeaders(): (k: Kind)
    ensures k.Struct? && |k.decl.fields| == 1
  {
    Struct(StructDecl("example", "RespHeaders", [FieldDecl("ContentType", map[], String)]))
  }

  /**
   * GetHeaders sends a camel-case field under its declared name, but
   * SetHeaders looks that name up lower-cased against the field's kebab-case
   * key, so the headers GetHeaders sends are refused as missing.
   */
  lemma CamelHeaderLost(codec: Codec, types: OutputTypes, sent: EndpointOutput, e: EndpointOutput)
    requires types.headers == CamelHeaders()
    requires sent.headers == RecordVal([StrVal("application/json")]) && Shaped(e.headers, types.headers)
    ensures HeadersOf(codec, types.headers, sent.headers) == Success(map["ContentType" := [codec.format(StrVal("application/json"))]])
    ensures SetHeadersOf(codec, types, e, map["ContentType" := [codec.format(StrVal("application/json"))]], ["ContentType"])
              == Failure(BadRequest("required headers not set"))
  {
    var d := CamelHeaders().decl;
    var name := "ContentType";
    assert EffectiveName(d.fields[0]) == name;
    DashCountPositive(name, 7);
    KebabLength(name);
    var f := AnalyzeField(d, 0);
    assert ToLower(name) != f.lkName;
    var info := AnalyzedStruct("RespHeaders", "example", [f], map[name := f], map[name := f], map[f.lkName := f]);
    assert !IsBlank(d.fields[0]);
    assert AnalyzePrefix(d, 0) == Success(AnalyzedStruct("RespHeaders", "example", [], map[], map[], map[]));
    var empty := AnalyzedStruct("RespHeaders", "example", [], map[], map[], map[]);
    assert f.fieldName == name && f.name == name;
    assert [] + [f] == [f];
    assert AnalyzeStep(d, 0, empty) == Success(info);
    assert AnalyzePrefix(d, 1) == Success(info);
    var hdrs := map[name := [codec.format(StrVal("application/json"))]];
    var st := HeaderState(e.headers.items, RequiredKeys(info.fields));
    assert RequiredKeys(info.fields) == {f.lkName} by {
      assert info.fields[..0] == [];
    }
    assert ValuesFold(codec, info, name, hdrs[name], st) == Success(st) by {
      assert hdrs[name][..0] == [];
    }
    assert ["ContentType"][..0] == [];
    assert KeysFold(codec, info, hdrs, ["ContentType"], st) == Success(st);
  }
}
