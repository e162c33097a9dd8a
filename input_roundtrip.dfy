/**
 * What parse promises about a payload, and the round trip between the two
 * halves of pkg/apio/apio_input.go: parsing the payload that ToPayload builds
 * from a typed input gives that input back, as long as the opaque codecs read
 * back what they write and no query field is renamed by a name tag.
 */
module InputRoundTrip {
  import opened Wrappers
  import opened Reflect
  import opened Analysis
  import opened Input

  // ---------------------------------------------------------------------------
  // What a successful parse requires of the payload

  /**
   * A header bound to a field carries at most one value, and exactly one when
   * the field is required; every path parameter is present; a query
   * parameter carries at most one value, and exactly one when required.
   */
  lemma ParseOkNeeds(codec: Codec, types: InputTypes, payload: InputPayload)
    requires types.headers.Struct? && types.path.Struct? && types.query.Struct?
    requires ParseOk(codec, types, payload)
    ensures forall i :: 0 <= i < |types.headers.decl.fields| && HeaderBound(types.headers.decl, i) ==>
      && |Values(payload.headers, AnalyzeField(types.headers.decl, i).lkName)| <= 1
      && (!types.headers.decl.fields[i].kind.Ptr? ==> |Values(payload.headers, AnalyzeField(types.headers.decl, i).lkName)| == 1)
    ensures forall i :: 0 <= i < |types.path.decl.fields| && !IsBlank(types.path.decl.fields[i]) ==>
      types.path.decl.fields[i].name in payload.path
    ensures forall i :: 0 <= i < |types.query.decl.fields| && !IsBlank(types.query.decl.fields[i]) ==>
      && |Values(payload.query, types.query.decl.fields[i].name)| <= 1
      && (!types.query.decl.fields[i].kind.Ptr? ==> |Values(payload.query, types.query.decl.fields[i].name)| == 1)
    ensures types.body.Struct?
  {
    var hd := types.headers.decl;
    var qd := types.query.decl;
    forall i | 0 <= i < |hd.fields| && HeaderBound(hd, i)
      ensures |Values(payload.headers, AnalyzeField(hd, i).lkName)| <= 1
      ensures !hd.fields[i].kind.Ptr? ==> |Values(payload.headers, AnalyzeField(hd, i).lkName)| == 1
    {
      assert HeaderOutcome(codec, payload.headers, hd, i).Success?;
    }
    forall i | 0 <= i < |qd.fields| && !IsBlank(qd.fields[i])
      ensures |Values(payload.query, qd.fields[i].name)| <= 1
      ensures !qd.fields[i].kind.Ptr? ==> |Values(payload.query, qd.fields[i].name)| == 1
    {
      assert QueryOutcome(codec, payload.query, qd, i).Success?;
    }
  }

  /** A body type without fields: the body bytes are never looked at, and the body parses as its zero value. */
  lemma EmptyBodyIgnored(codec: Codec, types: InputTypes, payload: InputPayload, bytes: Bytes)
    requires types.headers.Struct? && types.path.Struct? && types.query.Struct?
    requires types.body.Struct? && NumField(types.body) == 0
    ensures ParseOk(codec, types, payload) <==> ParseOk(codec, types, payload.(body := bytes))
    ensures ParseOk(codec, types, payload) ==>
      && Parsed(codec, types, payload) == Parsed(codec, types, payload.(body := bytes))
      && Parsed(codec, types, payload).body == ZeroOf(types.body)
  {
    var p := payload.(body := bytes);
    assert p.headers == payload.headers && p.path == payload.path && p.query == payload.query;
  }

  // ---------------------------------------------------------------------------
  // The round trip

  /** serializeValue followed by the field setter gives the value back. */
  ghost predicate FieldCodecRoundTrip(codec: Codec) {
    forall k: Kind, v: Value :: HasType(v, k) && codec.marshal(v).Some? ==>
      codec.unmarshal(k, Unquote(codec.marshal(v).value)) == Some(v)
  }

  /** Decoding an encoded body gives it back. */
  ghost predicate BodyCodecRoundTrip(codec: Codec) {
    forall k: Kind, v: Value :: HasType(v, k) && codec.marshalBody(v).Some? ==>
      codec.unmarshalBody(k, codec.marshalBody(v).value) == Some(v)
  }

  /** Each facet value has its facet's type (and so the shape the accessors need). */
  predicate Typed(types: InputTypes, e: EndpointInput) {
    && InputShaped(types, e)
    && HasType(e.headers, types.headers) && HasType(e.path, types.path)
    && HasType(e.query, types.query) && HasType(e.body, types.body)
  }

  /** No named header field is renamed to `_` by its tag (ToPayload and parse both skip such a field). */
  predicate HeaderNamesKept(d: StructDecl) {
    forall i :: 0 <= i < |d.fields| && !IsBlank(d.fields[i]) ==> EffectiveName(d.fields[i]) != Blank
  }

  /** No query field carries a name tag. */
  predicate NoNameTags(d: StructDecl) {
    forall i :: 0 <= i < |d.fields| ==> TagLookup(d.fields[i], "name").None?
  }

  lemma SetFromSerialized(codec: Codec, f: FieldDecl, v: Value)
    requires FieldCodecRoundTrip(codec)
    requires HasType(v, f.kind) && Serialize(codec, v).Success?
    ensures SetFromString(codec, f, Some(Serialize(codec, v).value)) == Success(v)
  {
  }

  /** The items of a struct value of type `d`: each of its field's type, and zero for a blank one. */
  predicate ItemsTyped(d: StructDecl, items: seq<Value>) {
    && |items| == |d.fields|
    && (forall i :: 0 <= i < |d.fields| ==> HasType(items[i], d.fields[i].kind))
    && (forall i :: 0 <= i < |d.fields| && IsBlank(d.fields[i]) ==> items[i] == ZeroOf(d.fields[i].kind))
  }

  /** The header outcome of a bound field, given its header entry, is the field's value. */
  lemma HeaderFieldRoundTrip(codec: Codec, d: StructDecl, items: seq<Value>, headers: map<string, seq<string>>, i: nat)
    requires FieldCodecRoundTrip(codec)
    requires i < |d.fields| == |items| && HeaderBound(d, i)
    requires HasType(items[i], d.fields[i].kind)
    requires HeaderEntry(codec, items, headers, AnalyzeField(d, i))
    ensures HeaderOutcome(codec, headers, d, i) == Success(items[i])
  {
    var f := AnalyzeField(d, i);
    AnalyzeFieldFacts(d, i);
    if GetPtr(items, f).Some? {
      SetFromSerialized(codec, d.fields[i], items[i]);
    }
  }

  /** Header entries for every bound field parse back to the header items. */
  lemma HeadersRoundTrip(codec: Codec, d: StructDecl, items: seq<Value>, headers: map<string, seq<string>>)
    requires FieldCodecRoundTrip(codec)
    requires ItemsTyped(d, items) && HeaderNamesKept(d)
    requires forall i :: 0 <= i < |d.fields| && HeaderBound(d, i) ==> HeaderEntry(codec, items, headers, AnalyzeField(d, i))
    ensures HeadersOk(codec, headers, d)
    ensures ParsedHeaders(codec, headers, d) == items
  {
    forall i | 0 <= i < |d.fields| && HeaderBound(d, i) ensures HeaderOutcome(codec, headers, d, i) == Success(items[i]) {
      HeaderFieldRoundTrip(codec, d, items, headers, i);
    }
    forall i | 0 <= i < |d.fields| ensures ParsedHeaders(codec, headers, d)[i] == items[i] {
    }
  }

  /** Path entries for every named field parse back to the path items. */
  lemma PathRoundTrip(codec: Codec, d: StructDecl, items: seq<Value>, path: map<string, string>)
    requires FieldCodecRoundTrip(codec)
    requires ItemsTyped(d, items)
    requires forall i :: 0 <= i < |d.fields| && !IsBlank(d.fields[i]) ==> PathEntry(codec, path, d.fields[i], items[i])
    ensures PathOk(codec, path, d)
    ensures ParsedPath(codec, path, d) == items
  {
    forall i | 0 <= i < |d.fields| && !IsBlank(d.fields[i]) ensures PathOutcome(codec, path, d, i) == Success(items[i]) {
      SetFromSerialized(codec, d.fields[i], items[i]);
    }
    forall i | 0 <= i < |d.fields| ensures ParsedPath(codec, path, d)[i] == items[i] {
    }
  }

  /** Query entries for every named, untagged field parse back to the query items. */
  lemma QueryRoundTrip(codec: Codec, d: StructDecl, items: seq<Value>, query: map<string, seq<string>>)
    requires FieldCodecRoundTrip(codec)
    requires ItemsTyped(d, items) && NoNameTags(d)
    requires forall i :: 0 <= i < |d.fields| && !IsBlank(d.fields[i]) ==> QueryEntry(codec, query, d.fields[i], items[i])
    ensures QueryOk(codec, query, d)
    ensures ParsedQuery(codec, query, d) == items
  {
    forall i | 0 <= i < |d.fields| && !IsBlank(d.fields[i]) ensures QueryOutcome(codec, query, d, i) == Success(items[i]) {
      assert TagLookup(d.fields[i], "name").None?;
      assert QueryEntry(codec, query, d.fields[i], items[i]);
      if !Absent(d.fields[i], items[i]) {
        SetFromSerialized(codec, d.fields[i], items[i]);
      }
    }
    forall i | 0 <= i < |d.fields| ensures ParsedQuery(codec, query, d)[i] == items[i] {
    }
  }

  /** Untagged names are public names, so distinct declared names are distinct public names. */
  lemma UntaggedNamesDistinct(d: StructDecl)
    requires NoNameTags(d) && NamesDistinct(d, |d.fields|)
    ensures EffectiveNamesDistinct(d, |d.fields|)
  {
    forall i | 0 <= i < |d.fields| ensures EffectiveName(d.fields[i]) == d.fields[i].name {
      assert TagLookup(d.fields[i], "name").None?;
    }
  }

  /** The header map of ToPayload holds the header entry of every bound field. */
  lemma HeadersPayloadEntries(codec: Codec, k: Kind, items: seq<Value>)
    requires Analyze(k).Success? && k.Struct? && |items| == |k.decl.fields|
    requires forall j :: 0 <= j < |Analyze(k).value.fields| ==> Analyze(k).value.fields[j].index < |items|
    ensures var fs := Analyze(k).value.fields;
      HeadersPayloadPrefix(codec, fs, items, |fs|).Success? ==>
        forall i :: 0 <= i < |k.decl.fields| && HeaderBound(k.decl, i) ==>
          HeaderEntry(codec, items, HeadersPayloadPrefix(codec, fs, items, |fs|).value, AnalyzeField(k.decl, i))
  {
    var d := k.decl;
    var fs := Analyze(k).value.fields;
    AnalyzeDescribes(k);
    HeadersPayloadSpec(codec, fs, items, |fs|);
    BoundFieldsComplete(d, |d.fields|);
    forall i | 0 <= i < |d.fields| && HeaderBound(d, i) ensures exists j :: 0 <= j < |fs| && fs[j] == AnalyzeField(d, i) {
      assert AnalyzeField(d, i) in fs;
    }
  }

  /** The facets of a payload ToPayload built, each as the loop that built it left it. */
  lemma PayloadFacets(codec: Codec, types: InputTypes, e: EndpointInput, payload: InputPayload)
    requires InputShaped(types, e)
    requires PayloadOf(codec, types, e) == Success(payload)
    ensures Analyze(types.headers).Success? && types.headers.Struct? && types.path.Struct? && types.query.Struct?
    ensures MarshalBody(codec, e.body) == Success(payload.body)
    ensures forall i :: 0 <= i < |types.headers.decl.fields| && HeaderBound(types.headers.decl, i) ==>
      HeaderEntry(codec, e.headers.items, payload.headers, AnalyzeField(types.headers.decl, i))
    ensures PathPayloadPrefix(codec, types.path.decl, e.path.items, |types.path.decl.fields|)
      == Success(PathPart(payload.pathStr, payload.path))
    ensures QueryPayloadPrefix(codec, types.query.decl, e.query.items, |types.query.decl.fields|) == Success(payload.query)
  {
    AnalyzeDescribes(types.headers);
    AnalyzedIndices(types.headers);
    HeadersPayloadEntries(codec, types.headers, e.headers.items);
  }

  /** The body ToPayload encodes decodes back to the body value; a body type without fields parses as its zero value. */
  lemma BodyRoundTrip(codec: Codec, k: Kind, v: Value)
    requires BodyCodecRoundTrip(codec)
    requires k.Struct? && HasType(v, k)
    requires MarshalBody(codec, v).Success?
    ensures ParseBody(codec, k, MarshalBody(codec, v).value) == Success(v)
  {
    if NumField(k) == 0 {
      assert v.items == ZeroOf(k).items;
    }
  }

  /**
   * The round trip: for an endpoint whose plans can be built, parsing the
   * payload ToPayload builds from a well-typed input succeeds and gives that
   * input back.
   */
  lemma ParseOfPayload(codec: Codec, types: InputTypes, e: EndpointInput, payload: InputPayload)
    requires FieldCodecRoundTrip(codec) && BodyCodecRoundTrip(codec)
    requires types.headers.Struct? && types.path.Struct? && types.query.Struct? && types.body.Struct?
    requires Typed(types, e)
    requires HeaderNamesKept(types.headers.decl) && NoNameTags(types.query.decl)
    requires PathPlan(types.path).Success? && QueryPlan(types.query).Success?
    requires PayloadOf(codec, types, e) == Success(payload)
    ensures ParseOk(codec, types, payload)
    ensures Parsed(codec, types, payload) == e
  {
    var pd := types.path.decl;
    var qd := types.query.decl;
    PayloadFacets(codec, types, e, payload);
    PathPlanBindings(pd, |pd.fields|);
    PathPayloadMap(codec, pd, e.path.items, |pd.fields|);
    QueryPlanBindings(qd, |qd.fields|);
    UntaggedNamesDistinct(qd);
    QueryPayloadValues(codec, qd, e.query.items, |qd.fields|);
    HeadersRoundTrip(codec, types.headers.decl, e.headers.items, payload.headers);
    PathRoundTrip(codec, pd, e.path.items, payload.path);
    QueryRoundTrip(codec, qd, e.query.items, payload.query);
    BodyRoundTrip(codec, types.body, e.body);
  }

  // ---------------------------------------------------------------------------
  // A query field renamed by its tag

  /** A query type with one required integer field `Page`, tagged `name:"page"`. */
  function RenamedQuery(): StructDecl {
    StructDecl("example", "Query", [FieldDecl("Page", map["name" := "page"], Int)])
  }

  /**
   * ToPayload writes a renamed query field under its tag, but parse looks it
   * up under its declared name, so the payload of a valid input is refused.
   */
  lemma RenamedQueryFieldLost(codec: Codec, payload: InputPayload)
    requires codec.marshal(IntVal(3)).Some?
    requires QueryPayloadPrefix(codec, RenamedQuery(), [IntVal(3)], 1) == Success(payload.query)
    ensures "page" in payload.query && "Page" !in payload.query
    ensures !QueryOk(codec, payload.query, RenamedQuery())
  {
    var d := RenamedQuery();
    assert EffectiveName(d.fields[0]) == "page";
    assert QueryOutcome(codec, payload.query, d, 0).Failure?;
  }
}
