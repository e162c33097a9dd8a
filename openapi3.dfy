/**
 * The OpenAPI 3 generator of pkg/apio/openapi3: path patterns in OpenAPI
 * form, schema names, the type and schema-reference of a kind, the parameter
 * list of an endpoint, component schemas and the document itself.
 */
module OpenApi3 {
  import opened Wrappers
  import opened Strings
  import opened Reflect
  import opened Analysis
  import opened Output

  // ---------------------------------------------------------------------------
  // apioPattern2OpenApi3Pattern

  /** A segment as it appears in the output, after its slash: `:x` becomes `{x}`. */
  function RenderedSegment(trimmed: string): string
    requires trimmed != []
  {
    if trimmed[0] == ':' then "{" + trimmed[1..] + "}" else trimmed
  }

  /** What one piece of the split pattern adds to the result: nothing if it is blank. */
  function SegmentOf(part: string): string {
    var trimmed := TrimSpace(part);
    if trimmed == "" then "" else "/" + RenderedSegment(trimmed)
  }

  /** The result after the first `n` pieces. */
  function PatternPrefix(parts: seq<string>, n: nat): string
    requires n <= |parts|
    decreases n
  {
    if n == 0 then "" else PatternPrefix(parts, n - 1) + SegmentOf(parts[n - 1])
  }

  /** apioPattern2OpenApi3Pattern */
  function OpenApiPattern(pattern: string): string {
    var parts := Split(pattern, '/');
    PatternPrefix(parts, |parts|)
  }

  method ConvertPattern(pattern: string) returns (result: string)
    ensures result == OpenApiPattern(pattern)
  {
    var parts := Split(pattern, '/');
    result := "";
    for i := 0 to |parts|
      invariant result == PatternPrefix(parts, i)
    {
      result := AppendSegment(result, parts[i]);
    }
  }

  /** The body of the loop in apioPattern2OpenApi3Pattern, for one piece of the pattern. */
  method AppendSegment(result: string, part: string) returns (r: string)
    ensures r == result + SegmentOf(part)
  {
    var trimmed := TrimSpace(part);
    if trimmed == "" {
      return result;
    }
    assert SegmentOf(part) == "/" + RenderedSegment(trimmed);
    if trimmed[0] == ':' {
      r := result + "/{" + trimmed[1..] + "}";
      assert r == result + ("/" + RenderedSegment(trimmed)) by {
        assert "/{" + trimmed[1..] + "}" == "/" + RenderedSegment(trimmed);
      }
    } else {
      r := result + "/" + trimmed;
    }
  }

  /** Empty or a slash first, never two slashes in a row, and no slash last. */
  predicate PathShaped(s: string) {
    && (s != [] ==> s[0] == '/' && s[|s| - 1] != '/')
    && (forall i :: 0 <= i < |s| - 1 && s[i] == '/' ==> s[i + 1] != '/')
  }

  /** The rendered segments, in order, of the non-blank pieces among the first `n`. */
  function Segments(parts: seq<string>, n: nat): seq<string>
    requires n <= |parts|
    decreases n
  {
    if n == 0 then [] else Segments(parts, n - 1) + SegmentPiece(parts[n - 1])
  }

  /** The rendered segment of one piece, if it is not blank. */
  function SegmentPiece(part: string): seq<string> {
    var trimmed := TrimSpace(part);
    if trimmed == "" then [] else [RenderedSegment(trimmed)]
  }

  /** "/" + s for every s, concatenated. */
  function SlashJoined(ss: seq<string>): string
    decreases |ss|
  {
    if ss == [] then "" else SlashJoined(ss[..|ss| - 1]) + ("/" + ss[|ss| - 1])
  }

  /** A rendered segment: not empty, without slash, no white space at either end, not a placeholder. */
  predicate CleanSegment(s: string) {
    s != [] && '/' !in s && !IsSpace(s[0]) && !IsSpace(s[|s| - 1]) && s[0] != ':'
  }

  lemma RenderedSegmentClean(trimmed: string)
    requires trimmed != [] && '/' !in trimmed
    requires !IsSpace(trimmed[0]) && !IsSpace(trimmed[|trimmed| - 1])
    ensures CleanSegment(RenderedSegment(trimmed))
  {
    if trimmed[0] == ':' {
      var r := "{" + trimmed[1..] + "}";
      assert '/' !in r by {
        forall j | 0 <= j < |r| ensures r[j] != '/' {
          if 0 < j < |r| - 1 {
            assert r[j] == trimmed[j];
          }
        }
      }
    }
  }

  /** What one piece adds is its rendered segment, if any, after a slash. */
  lemma SegmentOfPiece(part: string)
    ensures SegmentOf(part) == SlashJoined(SegmentPiece(part))
  {
    var p := SegmentPiece(part);
    if p != [] {
      assert p[..0] == [];
    }
  }

  lemma {:induction false} SlashJoinedAppend(a: seq<string>, b: seq<string>)
    ensures SlashJoined(a + b) == SlashJoined(a) + SlashJoined(b)
    decreases |b|
  {
    if b == [] {
      assert a + b == a;
    } else {
      var b' := b[..|b| - 1];
      var last := b[|b| - 1];
      SlashJoinedAppend(a, b');
      assert (a + b)[..|a + b| - 1] == a + b';
      assert (a + b)[|a + b| - 1] == last;
      assert SlashJoined(b) == SlashJoined(b') + ("/" + last);
      assert SlashJoined(a + b) == SlashJoined(a + b') + ("/" + last);
    }
  }

  /** The result is the rendered segments, each after a slash. */
  lemma {:induction false} PatternPrefixSegments(parts: seq<string>, n: nat)
    requires n <= |parts|
    ensures PatternPrefix(parts, n) == SlashJoined(Segments(parts, n))
    decreases n
  {
    if n > 0 {
      PatternPrefixSegments(parts, n - 1);
      SegmentOfPiece(parts[n - 1]);
      SlashJoinedAppend(Segments(parts, n - 1), SegmentPiece(parts[n - 1]));
    }
  }

  /** Each rendered segment of pieces without slashes is clean. */
  lemma {:induction false} SegmentsClean(parts: seq<string>, n: nat)
    requires n <= |parts|
    requires forall i :: 0 <= i < |parts| ==> '/' !in parts[i]
    ensures forall j :: 0 <= j < |Segments(parts, n)| ==> CleanSegment(Segments(parts, n)[j])
    decreases n
  {
    if n > 0 {
      SegmentsClean(parts, n - 1);
      var trimmed := TrimSpace(parts[n - 1]);
      if trimmed != "" {
        TrimSpaceMembers(parts[n - 1], '/');
        RenderedSegmentClean(trimmed);
        var prev := Segments(parts, n - 1);
        assert Segments(parts, n) == prev + [RenderedSegment(trimmed)];
      }
    }
  }

  lemma {:induction false} SlashJoinedShaped(ss: seq<string>)
    requires forall j :: 0 <= j < |ss| ==> CleanSegment(ss[j])
    ensures PathShaped(SlashJoined(ss))
    decreases |ss|
  {
    if ss != [] {
      var p := ss[..|ss| - 1];
      SlashJoinedShaped(p);
      var last := ss[|ss| - 1];
      var r := SlashJoined(p) + ("/" + last);
      assert r == SlashJoined(ss);
      forall i | 0 <= i < |r| - 1 && r[i] == '/' ensures r[i + 1] != '/' {
        var q := SlashJoined(p);
        if i < |q| - 1 {
          assert r[i] == q[i] && r[i + 1] == q[i + 1];
        } else if i == |q| {
          assert r[i + 1] == last[0];
        }
      }
      assert r[|r| - 1] == last[|last| - 1];
      assert last[|last| - 1] in last;
    }
  }

  /** The converted pattern is empty or starts with a slash, has no empty segment and no trailing slash. */
  lemma OpenApiPatternShaped(pattern: string)
    ensures PathShaped(OpenApiPattern(pattern))
  {
    var parts := Split(pattern, '/');
    PatternPrefixSegments(parts, |parts|);
    SegmentsClean(parts, |parts|);
    SlashJoinedShaped(Segments(parts, |parts|));
  }

  /** A clean segment renders as itself. */
  lemma CleanPiece(s: string)
    requires CleanSegment(s)
    ensures SegmentPiece(s) == [s]
  {
    TrimSpaceOfTrimmed(s);
  }

  lemma SlashJoinedCons(s: string, rest: seq<string>)
    ensures SlashJoined([s] + rest) == "/" + s + SlashJoined(rest)
  {
    SlashJoinedAppend([s], rest);
    assert [s][..0] == [];
  }

  /** Splitting `s` followed by slash-joined clean segments at '/' gives back `s` and the segments. */
  lemma {:induction false} SplitSlashJoinedTail(s: string, rest: seq<string>)
    requires '/' !in s
    requires forall j :: 0 <= j < |rest| ==> CleanSegment(rest[j])
    ensures Split(s + SlashJoined(rest), '/') == [s] + rest
    decreases |rest|
  {
    if rest == [] {
      assert s + SlashJoined(rest) == s;
      SplitNoSep(s, '/');
    } else {
      var t := rest[0];
      var r' := rest[1..];
      assert [t] + r' == rest;
      SlashJoinedCons(t, r');
      assert s + SlashJoined(rest) == s + ['/'] + (t + SlashJoined(r'));
      SplitAtSep(s, t + SlashJoined(r'), '/');
      SplitSlashJoinedTail(t, r');
    }
  }

  /** The pieces of a slash-joined pattern render back to its segments. */
  lemma {:induction false} SegmentsOfCleanParts(ss: seq<string>, n: nat)
    requires n <= |ss|
    requires forall j :: 0 <= j < |ss| ==> CleanSegment(ss[j])
    ensures Segments([""] + ss, n + 1) == ss[..n]
    decreases n
  {
    var q := [""] + ss;
    if n == 0 {
      TrimSpaceOfTrimmed("");
      assert Segments(q, 1) == Segments(q, 0) + SegmentPiece(q[0]);
    } else {
      SegmentsOfCleanParts(ss, n - 1);
      CleanPiece(ss[n - 1]);
      assert q[n] == ss[n - 1];
      assert ss[..n] == ss[..n - 1] + [ss[n - 1]];
    }
  }

  /** Slash-joined clean segments are already in OpenAPI form. */
  lemma SlashJoinedConverted(ss: seq<string>)
    requires forall j :: 0 <= j < |ss| ==> CleanSegment(ss[j])
    ensures OpenApiPattern(SlashJoined(ss)) == SlashJoined(ss)
  {
    var x := SlashJoined(ss);
    var q := [""] + ss;
    SplitSlashJoinedTail("", ss);
    assert "" + x == x;
    SegmentsOfCleanParts(ss, |ss|);
    PatternPrefixSegments(q, |q|);
    assert ss[..|ss|] == ss;
  }

  /** Converting a converted pattern again changes nothing. */
  lemma OpenApiPatternIdempotent(pattern: string)
    ensures OpenApiPattern(OpenApiPattern(pattern)) == OpenApiPattern(pattern)
  {
    var parts := Split(pattern, '/');
    PatternPrefixSegments(parts, |parts|);
    SegmentsClean(parts, |parts|);
    SlashJoinedConverted(Segments(parts, |parts|));
  }

  // ---------------------------------------------------------------------------
  // schemaNameOf

  /** The characters a schema name keeps: ASCII letters and digits, '-' and '_'. */
  predicate SchemaChar(c: char) {
    c == '-' || c == '_' || IsLower(c) || IsUpper(c) || IsDigit(c)
  }

  function SanitizeChar(c: char): char {
    if SchemaChar(c) then c else '_'
  }

  /** The strings.Map of schemaNameOf: every other character becomes '_'. */
  function Sanitize(s: string): (r: string)
    ensures |r| == |s|
    ensures forall i :: 0 <= i < |s| ==> SchemaChar(r[i])
    ensures forall i :: 0 <= i < |s| ==> (SchemaChar(s[i]) ==> r[i] == s[i]) && (!SchemaChar(s[i]) ==> r[i] == '_')
  {
    seq(|s|, i requires 0 <= i < |s| => SanitizeChar(s[i]))
  }

  /** A string is left alone exactly when it holds schema characters only. */
  lemma SanitizeFixed(s: string)
    ensures Sanitize(s) == s <==> forall i :: 0 <= i < |s| ==> SchemaChar(s[i])
  {
    if forall i :: 0 <= i < |s| ==> SchemaChar(s[i]) {
      assert Sanitize(s) == s;
    }
  }

  lemma SanitizeIdempotent(s: string)
    ensures Sanitize(Sanitize(s)) == Sanitize(s)
  {
    SanitizeFixed(Sanitize(s));
  }

  lemma SanitizeAppend(a: string, b: string)
    ensures Sanitize(a + b) == Sanitize(a) + Sanitize(b)
  {
    var r := Sanitize(a + b);
    forall i | 0 <= i < |r| ensures r[i] == (Sanitize(a) + Sanitize(b))[i] {
      if i < |a| {
        assert (a + b)[i] == a[i];
      } else {
        assert (a + b)[i] == b[i - |a|];
      }
    }
  }

  /** The part of a package path after its last slash. */
  function LastSegment(pkg: string): string {
    var parts := Split(pkg, '/');
    parts[|parts| - 1]
  }

  /** The last segment has no slash and ends the package path, after a slash unless it is all of it. */
  lemma {:induction false} LastSegmentSpec(pkg: string)
    ensures var last := LastSegment(pkg); '/' !in last && (pkg == last || HasSuffix(pkg, "/" + last))
  {
    var parts := Split(pkg, '/');
    var last := parts[|parts| - 1];
    assert '/' !in last;
    assert pkg == last || HasSuffix(pkg, ['/'] + last) by {
      JoinSplit(pkg, '/');
      JoinEndsWithLast(parts, '/');
    }
  }

  /** schemaNameOf: the last package segment and the type name, joined by '/' and sanitized. */
  function SchemaNameOf(info: AnalyzedStruct): string {
    Sanitize(LastSegment(info.pkg) + "/" + info.name)
  }

  /**
   * A schema name has one character per character of "segment/name", all of
   * them schema characters, so it has no slash; it is the sanitized segment
   * and the sanitized name around an underscore, and sanitizing it again
   * changes nothing.
   */
  lemma SchemaNameOfSpec(info: AnalyzedStruct)
    ensures var r := SchemaNameOf(info); var last := LastSegment(info.pkg);
      && |r| == |last| + 1 + |info.name|
      && (forall i :: 0 <= i < |r| ==> SchemaChar(r[i]))
      && '/' !in r
      && r == Sanitize(last) + "_" + Sanitize(info.name)
      && Sanitize(r) == r
  {
    var last := LastSegment(info.pkg);
    var r := SchemaNameOf(info);
    SanitizeAppend(last + "/", info.name);
    SanitizeAppend(last, "/");
    assert Sanitize("/") == "_";
    SanitizeIdempotent(last + "/" + info.name);
    assert !SchemaChar('/');
  }

  // ---------------------------------------------------------------------------
  // goTypeToOpenapiType and goTypeToOpenapiSchemaRef

  /** goTypeToOpenapiType: the JSON Schema type of a kind, looking through pointers. */
  function OpenapiType(k: Kind): Result<string>
    decreases k
  {
    if k.Bool? then Success("boolean")
    else if IsIntegerKind(k) then Success("integer")
    else if IsFloatKind(k) then Success("number")
    else if k.String? then Success("string")
    else if k.Interface? || k.Struct? then Success("object")
    else if k.Ptr? then OpenapiType(k.elem)
    else if k.Slice? then Success("array")
    else Failure(DeclarationError("unsupported type"))
  }

  /** The kind with every pointer around it taken away. */
  function Deref(k: Kind): (r: Kind)
    ensures !r.Ptr?
    decreases k
  {
    if k.Ptr? then Deref(k.elem) else k
  }

  /** The kinds goTypeToOpenapiType panics on. */
  predicate Unsupported(k: Kind) {
    k.Uintptr? || k.Complex64? || k.Complex128? || k.Func? || k.UnsafePointer? || k.Array? || k.Chan? || k.Map?
  }

  /** The JSON Schema primitive types. */
  const JsonTypes: set<string> := {"boolean", "integer", "number", "string", "object", "array"}

  /**
   * A kind and its pointee get the same type; the type is found exactly when
   * the kind behind the pointers is supported, and it is then one of the JSON
   * Schema types: "array" for slices and "object" for structs and interfaces.
   */
  lemma {:induction false} OpenapiTypeSpec(k: Kind)
    ensures OpenapiType(k) == OpenapiType(Deref(k))
    ensures OpenapiType(k).Success? <==> !Unsupported(Deref(k))
    ensures OpenapiType(k).Success? ==> OpenapiType(k).value in JsonTypes
    ensures OpenapiType(k) == Success("array") <==> Deref(k).Slice?
    ensures OpenapiType(k) == Success("object") <==> Deref(k).Struct? || Deref(k).Interface?
    ensures OpenapiType(k) == Failure(DeclarationError("unsupported type")) <==> Unsupported(Deref(k))
    decreases k
  {
    if k.Ptr? {
      OpenapiTypeSpec(k.elem);
    }
  }

  /** What a property or parameter schema says: a primitive type, an array of items, or a reference. */
  datatype SchemaRef = TypeRef(typ: string) | ArrayRef(items: SchemaRef) | Ref(schema: string)

  const SchemasPrefix: string := "#/components/schemas/"

  /** The `$ref` text of a reference to the component schema `schema`. */
  function RefText(schema: string): string {
    SchemasPrefix + schema
  }

  /** AnalyzeStructType inside the generator, where a failure is a panic. */
  function StructInfoOf(k: Kind): Result<AnalyzedStruct> {
    AnalyzeOrPanic(k, "failed to analyze struct")
  }

  /** goTypeToOpenapiSchemaRef */
  function SchemaRefOf(k: Kind): Result<SchemaRef>
    decreases k
  {
    if k.Ptr? then SchemaRefOf(k.elem)
    else if k.Slice? then
      var items :- SchemaRefOf(k.elem);
      Success(ArrayRef(items))
    else if k.Struct? then
      var info :- StructInfoOf(k);
      Success(Ref(SchemaNameOf(info)))
    else
      var t :- OpenapiType(k);
      Success(TypeRef(t))
  }

  /** The JSON Schema type a reference stands for. */
  function TypeOfRef(r: SchemaRef): string {
    match r
    case TypeRef(t) => t
    case ArrayRef(_) => "array"
    case Ref(_) => "object"
  }

  /**
   * A kind and its pointee get the same reference. A slice becomes an array of
   * its element's reference, a struct a reference to its schema name, and
   * anything else its type; whenever a reference is found it agrees with the
   * type goTypeToOpenapiType gives.
   */
  lemma {:induction false} SchemaRefOfSpec(k: Kind)
    ensures SchemaRefOf(k) == SchemaRefOf(Deref(k))
    ensures Deref(k).Slice? ==> SchemaRefOf(k).Success? == SchemaRefOf(Deref(k).elem).Success?
    ensures Deref(k).Slice? && SchemaRefOf(k).Success? ==> SchemaRefOf(k).value == ArrayRef(SchemaRefOf(Deref(k).elem).value)
    ensures Deref(k).Struct? ==> (SchemaRefOf(k).Success? <==> Analyze(Deref(k)).Success?)
    ensures Deref(k).Struct? && SchemaRefOf(k).Success? ==> SchemaRefOf(k).value == Ref(SchemaNameOf(Analyze(Deref(k)).value))
    ensures !Deref(k).Slice? && !Deref(k).Struct? ==>
      (SchemaRefOf(k).Success? <==> OpenapiType(k).Success?) &&
      (SchemaRefOf(k).Success? ==> SchemaRefOf(k).value == TypeRef(OpenapiType(k).value))
    ensures SchemaRefOf(k).Success? ==> OpenapiType(k) == Success(TypeOfRef(SchemaRefOf(k).value))
    decreases k
  {
    OpenapiTypeSpec(k);
    if k.Ptr? {
      SchemaRefOfSpec(k.elem);
    }
  }

  // ---------------------------------------------------------------------------
  // GetComponentsOfType, GetComponentsOfStruct

  /** A component schema: always of type "object", with a reference per property. */
  datatype Schema = Schema(typ: string, properties: map<string, SchemaRef>, required: seq<string>)

  /** The state of the loop of GetComponentsOfStruct: `props`, `required` and `schemas`. */
  datatype StructAcc = StructAcc(props: map<string, SchemaRef>, required: seq<string>, schemas: map<string, Schema>)

  /** The type a field's value has: the pointee for a pointer field. */
  function ValueTypeOf(k: Kind): Kind {
    if k.Ptr? then k.elem else k
  }

  /** Field `f` of the analysis is a non-blank field of `d` whose type is `f`'s value type. */
  predicate FieldOf(f: AnalyzedField, d: StructDecl) {
    && f.index < |d.fields|
    && !IsBlank(d.fields[f.index])
    && f.valueType == ValueTypeOf(d.fields[f.index].kind)
  }

  /** Each analyzed field of `info` is a non-blank declared field of `d`, with its value type. */
  predicate FieldsOf(info: AnalyzedStruct, d: StructDecl) {
    forall i {:trigger FieldOf(info.fields[i], d)} :: 0 <= i < |info.fields| ==> FieldOf(info.fields[i], d)
  }

  lemma DescribedFieldsOf(info: AnalyzedStruct, d: StructDecl)
    requires Describes(info, d)
    ensures FieldsOf(info, d)
  {
    forall i | 0 <= i < |info.fields|
      ensures info.fields[i].index < |d.fields| && !IsBlank(d.fields[info.fields[i].index])
      ensures info.fields[i].valueType == ValueTypeOf(d.fields[info.fields[i].index].kind)
    {
      DescribedField(info, d, info.fields[i]);
    }
  }

  lemma AnalyzedFieldsOf(k: Kind)
    requires Analyze(k).Success?
    ensures k.Struct? && FieldsOf(Analyze(k).value, k.decl)
  {
    AnalyzeDescribes(k);
    DescribedFieldsOf(Analyze(k).value, k.decl);
  }

  /** No two fields share a public name. */
  predicate UniqueNames(fs: seq<AnalyzedField>) {
    forall i, j :: 0 <= i < j < |fs| ==> fs[i].name != fs[j].name
  }

  /**
   * The schemas GetComponentsOfType emits for a kind. With `deref` false this
   * is the function as written, where a pointer emits nothing; with `deref`
   * true a pointer is looked through, as goTypeToOpenapiSchemaRef does.
   */
  function TypeComponentsWith(k: Kind, deref: bool): Result<map<string, Schema>>
    decreases k, 1
  {
    if k.Struct? then
      var info :- StructInfoOf(k);
      AnalyzedFieldsOf(k);
      StructComponentsWith(k.decl, info, deref)
    else if k.Slice? then TypeComponentsWith(k.elem, deref)
    else if k.Ptr? && deref then TypeComponentsWith(k.elem, deref)
    else Success(map[])
  }

  /** GetComponentsOfStruct: nothing for a struct without fields, else its own schema last. */
  function StructComponentsWith(d: StructDecl, info: AnalyzedStruct, deref: bool): Result<map<string, Schema>>
    requires FieldsOf(info, d)
    decreases Struct(d), 0, |info.fields| + 1
  {
    if !info.HasContent() then Success(map[])
    else
      var acc :- FieldsComponents(d, info, |info.fields|, deref);
      Success(acc.schemas[SchemaNameOf(info) := Schema("object", acc.props, acc.required)])
  }

  /** The loop of GetComponentsOfStruct after its first `n` fields. */
  function FieldsComponents(d: StructDecl, info: AnalyzedStruct, n: nat, deref: bool): Result<StructAcc>
    requires FieldsOf(info, d)
    requires n <= |info.fields|
    decreases Struct(d), 0, n
  {
    if n == 0 then Success(StructAcc(map[], [], map[]))
    else
      var acc :- FieldsComponents(d, info, n - 1, deref);
      FieldStep(d, info, n - 1, acc, deref)
  }

  /** One iteration of that loop, for field `i`. */
  function FieldStep(d: StructDecl, info: AnalyzedStruct, i: nat, acc: StructAcc, deref: bool): Result<StructAcc>
    requires FieldsOf(info, d)
    requires i < |info.fields|
    decreases Struct(d), 0, i
  {
    var f := info.fields[i];
    assert FieldOf(f, d);
    assert d.fields[f.index] in d.fields;
    var ref :- SchemaRefOf(f.valueType);
    var nested :- TypeComponentsWith(f.valueType, deref);
    Success(AddField(acc, f, ref, nested))
  }

  /** The property, the required name if any, and the nested schemas of one field. */
  function AddField(acc: StructAcc, f: AnalyzedField, ref: SchemaRef, nested: map<string, Schema>): StructAcc {
    StructAcc(acc.props[f.name := ref],
              acc.required + (if f.IsRequired() then [f.name] else []),
              acc.schemas + nested)
  }

  function TypeComponents(k: Kind): Result<map<string, Schema>> {
    TypeComponentsWith(k, true)
  }

  function StructComponents(d: StructDecl, info: AnalyzedStruct): Result<map<string, Schema>>
    requires FieldsOf(info, d)
  {
    StructComponentsWith(d, info, true)
  }

  /** The component names a reference points at. */
  function RefNames(r: SchemaRef): set<string> {
    match r
    case TypeRef(_) => {}
    case ArrayRef(items) => RefNames(items)
    case Ref(s) => {s}
  }

  /** Every reference among `props` points at one of `names`. */
  predicate RefsWithin(props: map<string, SchemaRef>, names: set<string>) {
    forall p :: p in props ==> RefNames(props[p]) <= names
  }

  /** Every reference of every schema points at a schema of the same map. */
  predicate Closed(schemas: map<string, Schema>) {
    forall n :: n in schemas ==> RefsWithin(schemas[n].properties, schemas.Keys)
  }

  /**
   * Every struct reachable from `k` through slices, pointers and analyzed
   * fields declares a non-blank field, so that it gets a schema of its own.
   */
  predicate Referable(k: Kind)
    decreases k
  {
    if k.Ptr? || k.Slice? then Referable(k.elem)
    else if k.Struct? then
      && (exists i :: 0 <= i < |k.decl.fields| && !IsBlank(k.decl.fields[i]))
      && (forall i :: 0 <= i < |k.decl.fields| && !IsBlank(k.decl.fields[i]) ==> Referable(k.decl.fields[i].kind))
    else true
  }

  lemma ClosedUnion(a: map<string, Schema>, b: map<string, Schema>)
    requires Closed(a) && Closed(b)
    ensures Closed(a + b)
  {
  }

  /** Analyzed fields have distinct public names, since their lookup keys are distinct. */
  lemma DescribedNamesDistinct(info: AnalyzedStruct, d: StructDecl)
    requires Describes(info, d)
    ensures UniqueNames(info.fields)
  {
    forall i, j | 0 <= i < j < |info.fields| ensures info.fields[i].name != info.fields[j].name {
      DescribedField(info, d, info.fields[i]);
      DescribedField(info, d, info.fields[j]);
    }
  }

  /** The value type of an analyzed field of a Referable struct is Referable. */
  lemma ReferableField(d: StructDecl, info: AnalyzedStruct, i: nat)
    requires FieldsOf(info, d) && i < |info.fields|
    requires Referable(Struct(d))
    ensures Referable(info.fields[i].valueType)
  {
    assert FieldOf(info.fields[i], d);
    assert Referable(d.fields[info.fields[i].index].kind);
  }

  /** A Referable struct that analyzes has analyzed fields. */
  lemma ReferableHasContent(k: Kind)
    requires Referable(k) && k.Struct? && Analyze(k).Success?
    ensures Analyze(k).value.HasContent()
  {
    AnalyzedCount(k);
    CountBoundZero(k.decl, |k.decl.fields|);
  }

  /**
   * With pointers looked through, the schemas emitted for a Referable kind are
   * closed, and so is the reference goTypeToOpenapiSchemaRef gives for it:
   * no `$ref` is left dangling.
   */
  lemma {:induction false} TypeComponentsClosed(k: Kind)
    requires Referable(k) && TypeComponents(k).Success?
    ensures Closed(TypeComponents(k).value)
    ensures SchemaRefOf(k).Success? ==> RefNames(SchemaRefOf(k).value) <= TypeComponents(k).value.Keys
    decreases k, 1
  {
    if k.Struct? {
      AnalyzedFieldsOf(k);
      ReferableHasContent(k);
      StructComponentsClosed(k.decl, Analyze(k).value);
    } else if k.Slice? || k.Ptr? {
      TypeComponentsClosed(k.elem);
    }
  }

  lemma {:induction false} StructComponentsClosed(d: StructDecl, info: AnalyzedStruct)
    requires FieldsOf(info, d) && Referable(Struct(d)) && StructComponents(d, info).Success?
    ensures Closed(StructComponents(d, info).value)
    ensures info.HasContent() ==> SchemaNameOf(info) in StructComponents(d, info).value
    decreases Struct(d), 0, |info.fields| + 1
  {
    if info.HasContent() {
      FieldsComponentsClosed(d, info, |info.fields|);
    }
  }

  lemma {:induction false} FieldsComponentsClosed(d: StructDecl, info: AnalyzedStruct, n: nat)
    requires FieldsOf(info, d) && Referable(Struct(d))
    requires n <= |info.fields| && FieldsComponents(d, info, n, true).Success?
    ensures var acc := FieldsComponents(d, info, n, true).value;
      Closed(acc.schemas) && RefsWithin(acc.props, acc.schemas.Keys)
    decreases Struct(d), 0, n
  {
    if n > 0 {
      FieldsComponentsClosed(d, info, n - 1);
      var acc := FieldsComponents(d, info, n - 1, true).value;
      var f := info.fields[n - 1];
      ReferableField(d, info, n - 1);
      assert FieldOf(f, d);
      assert d.fields[f.index] in d.fields;
      TypeComponentsClosed(f.valueType);
      var ref := SchemaRefOf(f.valueType).value;
      var nested := TypeComponents(f.valueType).value;
      FieldsStep(d, info, n, true);
      AccStepClosed(acc, f.name, ref, nested);
    }
  }

  /** One step of the loop keeps its state closed. */
  lemma AccStepClosed(acc: StructAcc, name: string, ref: SchemaRef, nested: map<string, Schema>)
    requires Closed(acc.schemas) && RefsWithin(acc.props, acc.schemas.Keys)
    requires Closed(nested) && RefNames(ref) <= nested.Keys
    ensures Closed(acc.schemas + nested)
    ensures RefsWithin(acc.props[name := ref], (acc.schemas + nested).Keys)
  {
    ClosedUnion(acc.schemas, nested);
  }

  /** The public names of the required (non-pointer) fields among `fs`, in order. */
  function RequiredNames(fs: seq<AnalyzedField>): seq<string>
    decreases |fs|
  {
    if fs == [] then []
    else RequiredNames(fs[..|fs| - 1]) + (if fs[|fs| - 1].IsRequired() then [fs[|fs| - 1].name] else [])
  }

  /** A name is listed exactly when a required field carries it. */
  lemma {:induction false} RequiredNamesSpec(fs: seq<AnalyzedField>)
    ensures forall nm :: nm in RequiredNames(fs) <==> exists i :: 0 <= i < |fs| && fs[i].IsRequired() && fs[i].name == nm
    decreases |fs|
  {
    if fs != [] {
      var p := fs[..|fs| - 1];
      RequiredNamesSpec(p);
      forall nm ensures nm in RequiredNames(fs) <==> exists i :: 0 <= i < |fs| && fs[i].IsRequired() && fs[i].name == nm {
        if exists i :: 0 <= i < |fs| && fs[i].IsRequired() && fs[i].name == nm {
          var i :| 0 <= i < |fs| && fs[i].IsRequired() && fs[i].name == nm;
          if i < |p| {
            assert p[i] == fs[i];
          }
        }
        if nm in RequiredNames(p) {
          var i :| 0 <= i < |p| && p[i].IsRequired() && p[i].name == nm;
          assert fs[i] == p[i];
        }
      }
    }
  }

  /** Both pieces a field contributes can be computed. */
  predicate FieldDescribable(f: AnalyzedField, deref: bool) {
    SchemaRefOf(f.valueType).Success? && TypeComponentsWith(f.valueType, deref).Success?
  }

  /** The first `n` fields can all be described. */
  predicate AllDescribable(info: AnalyzedStruct, n: nat, deref: bool)
    requires n <= |info.fields|
  {
    forall i {:trigger FieldDescribable(info.fields[i], deref)} :: 0 <= i < n ==> FieldDescribable(info.fields[i], deref)
  }

  /** One iteration of the loop of GetComponentsOfStruct, for field `n - 1`. */
  lemma FieldsStep(d: StructDecl, info: AnalyzedStruct, n: nat, deref: bool)
    requires FieldsOf(info, d) && 0 < n <= |info.fields|
    ensures FieldsComponents(d, info, n, deref).Success? <==>
      FieldsComponents(d, info, n - 1, deref).Success? && FieldDescribable(info.fields[n - 1], deref)
    ensures FieldsComponents(d, info, n, deref).Success? ==>
      var f := info.fields[n - 1];
      FieldsComponents(d, info, n, deref).value ==
        AddField(FieldsComponents(d, info, n - 1, deref).value, f,
                 SchemaRefOf(f.valueType).value, TypeComponentsWith(f.valueType, deref).value)
  {
  }

  /** What one described field adds: its field, its reference and the schemas of its type. */
  datatype Entry = Entry(field: AnalyzedField, ref: SchemaRef, nested: map<string, Schema>)

  /** The loop state after adding the entries in order. */
  function Accumulate(es: seq<Entry>): StructAcc
    decreases |es|
  {
    if es == [] then StructAcc(map[], [], map[])
    else
      var e := es[|es| - 1];
      AddField(Accumulate(es[..|es| - 1]), e.field, e.ref, e.nested)
  }

  /** The entries of the first `n` fields, all of which can be described. */
  ghost function EntriesOf(info: AnalyzedStruct, n: nat, deref: bool): seq<Entry>
    requires n <= |info.fields|
    requires AllDescribable(info, n, deref)
    decreases n
  {
    if n == 0 then []
    else
      var f := info.fields[n - 1];
      assert FieldDescribable(f, deref);
      EntriesOf(info, n - 1, deref) + [Entry(f, SchemaRefOf(f.valueType).value, TypeComponentsWith(f.valueType, deref).value)]
  }

  lemma {:induction false} EntriesOfSpec(info: AnalyzedStruct, n: nat, deref: bool)
    requires n <= |info.fields|
    requires AllDescribable(info, n, deref)
    ensures |EntriesOf(info, n, deref)| == n
    ensures forall i :: 0 <= i < n ==> var e := EntriesOf(info, n, deref)[i];
      && e.field == info.fields[i]
      && SchemaRefOf(info.fields[i].valueType) == Success(e.ref)
      && TypeComponentsWith(info.fields[i].valueType, deref) == Success(e.nested)
    decreases n
  {
    if n > 0 {
      EntriesOfSpec(info, n - 1, deref);
      assert FieldDescribable(info.fields[n - 1], deref);
    }
  }

  /** When every field can be described, the loop is the accumulation of their entries. */
  lemma {:induction false} FieldsComponentsAccumulate(d: StructDecl, info: AnalyzedStruct, n: nat, deref: bool)
    requires FieldsOf(info, d) && n <= |info.fields|
    requires AllDescribable(info, n, deref)
    ensures FieldsComponents(d, info, n, deref) == Success(Accumulate(EntriesOf(info, n, deref)))
    decreases n
  {
    if n > 0 {
      FieldsComponentsAccumulate(d, info, n - 1, deref);
      FieldsStep(d, info, n, deref);
      var f := info.fields[n - 1];
      var e := Entry(f, SchemaRefOf(f.valueType).value, TypeComponentsWith(f.valueType, deref).value);
      AccumulateSnoc(EntriesOf(info, n - 1, deref), e);
    }
  }

  /** Accumulating one more entry adds its field. */
  lemma AccumulateSnoc(prev: seq<Entry>, e: Entry)
    ensures Accumulate(prev + [e]) == AddField(Accumulate(prev), e.field, e.ref, e.nested)
  {
    assert (prev + [e])[..|prev|] == prev;
  }

  /** The fields named by the entries. */
  function EntryFields(es: seq<Entry>): seq<AnalyzedField> {
    seq(|es|, j requires 0 <= j < |es| => es[j].field)
  }

  /** No two entries are for fields with the same public name. */
  predicate UniqueEntryNames(es: seq<Entry>) {
    forall i, j :: 0 <= i < j < |es| ==> es[i].field.name != es[j].field.name
  }

  /** A property is there exactly for each entry's public name. */
  lemma {:induction false} AccumulateKeys(es: seq<Entry>)
    ensures forall nm :: nm in Accumulate(es).props <==> exists j :: 0 <= j < |es| && es[j].field.name == nm
    decreases |es|
  {
    if es != [] {
      var p := es[..|es| - 1];
      AccumulateKeys(p);
      forall nm ensures nm in Accumulate(es).props <==> exists j :: 0 <= j < |es| && es[j].field.name == nm {
        if exists j :: 0 <= j < |p| && p[j].field.name == nm {
          var j :| 0 <= j < |p| && p[j].field.name == nm;
          assert es[j] == p[j];
        }
        if exists j :: 0 <= j < |es| && es[j].field.name == nm {
          var j :| 0 <= j < |es| && es[j].field.name == nm;
          if j < |p| {
            assert es[j] == p[j];
          }
        }
      }
    }
  }

  /** The property under an entry's public name holds the entry's reference. */
  lemma {:induction false} AccumulateValues(es: seq<Entry>)
    requires UniqueEntryNames(es)
    ensures forall j :: 0 <= j < |es| ==> es[j].field.name in Accumulate(es).props && Accumulate(es).props[es[j].field.name] == es[j].ref
    decreases |es|
  {
    if es != [] {
      var p := es[..|es| - 1];
      var e := es[|es| - 1];
      assert UniqueEntryNames(p) by {
        forall i, j | 0 <= i < j < |p| ensures p[i].field.name != p[j].field.name {
          assert p[i] == es[i] && p[j] == es[j];
        }
      }
      AccumulateValues(p);
      forall j | 0 <= j < |es| ensures es[j].field.name in Accumulate(es).props && Accumulate(es).props[es[j].field.name] == es[j].ref {
        if j < |p| {
          assert es[j] == p[j];
          assert es[j].field.name != e.field.name;
        }
      }
    }
  }

  /** The required names are those of the required fields, in order. */
  lemma {:induction false} AccumulateRequired(es: seq<Entry>)
    ensures Accumulate(es).required == RequiredNames(EntryFields(es))
    decreases |es|
  {
    if es != [] {
      var p := es[..|es| - 1];
      AccumulateRequired(p);
      assert EntryFields(es)[..|es| - 1] == EntryFields(p);
    }
  }

  /** Every schema emitted for a field's type is kept under its name. */
  lemma {:induction false} AccumulateNested(es: seq<Entry>)
    ensures forall j :: 0 <= j < |es| ==> es[j].nested.Keys <= Accumulate(es).schemas.Keys
    decreases |es|
  {
    if es != [] {
      var p := es[..|es| - 1];
      AccumulateNested(p);
      assert forall j :: 0 <= j < |p| ==> p[j] == es[j];
    }
  }

  /** All fields of the first `n` can be described when the loop succeeds, and only then. */
  lemma {:induction false} FieldsComponentsSuccess(d: StructDecl, info: AnalyzedStruct, n: nat, deref: bool)
    requires FieldsOf(info, d) && n <= |info.fields|
    ensures FieldsComponents(d, info, n, deref).Success? <==> AllDescribable(info, n, deref)
    decreases n
  {
    if n > 0 {
      FieldsComponentsSuccess(d, info, n - 1, deref);
      FieldsStep(d, info, n, deref);
    }
  }

  /**
   * GetComponentsOfStruct emits nothing for a struct without analyzed fields.
   * Otherwise it succeeds exactly when every field can be described, and then
   * the struct's own schema is an "object" with one property per field, under
   * the field's public name and holding its reference, and the names of the
   * required fields in declaration order; every schema emitted for a field's
   * type is there too, under its name.
   */
  lemma StructComponentsSpec(d: StructDecl, info: AnalyzedStruct, deref: bool)
    requires FieldsOf(info, d) && UniqueNames(info.fields)
    ensures !info.HasContent() ==> StructComponentsWith(d, info, deref) == Success(map[])
    ensures info.HasContent() ==>
      (StructComponentsWith(d, info, deref).Success? <==> AllDescribable(info, |info.fields|, deref))
    ensures info.HasContent() && StructComponentsWith(d, info, deref).Success? ==>
      OwnSchemaSpec(StructComponentsWith(d, info, deref).value, info, deref)
  {
    if info.HasContent() {
      var n := |info.fields|;
      FieldsComponentsSuccess(d, info, n, deref);
      if AllDescribable(info, n, deref) {
        FieldsComponentsAccumulate(d, info, n, deref);
        AccumulatedSchema(info, deref);
      }
    }
  }

  /** The properties are named exactly by the fields' public names. */
  predicate PropsNamed(props: map<string, SchemaRef>, fs: seq<AnalyzedField>) {
    && (forall nm :: nm in props ==> exists i :: 0 <= i < |fs| && fs[i].name == nm)
    && (forall i :: 0 <= i < |fs| ==> fs[i].name in props)
  }

  /** Each field's property holds goTypeToOpenapiSchemaRef of its value type. */
  predicate PropsRefer(props: map<string, SchemaRef>, fs: seq<AnalyzedField>) {
    forall i :: 0 <= i < |fs| ==> fs[i].name in props && SchemaRefOf(fs[i].valueType) == Success(props[fs[i].name])
  }

  /** The schemas emitted for each field's type are named in `keys`. */
  predicate NestedWithin(keys: set<string>, fs: seq<AnalyzedField>, deref: bool) {
    forall i :: 0 <= i < |fs| ==>
      TypeComponentsWith(fs[i].valueType, deref).Success? && TypeComponentsWith(fs[i].valueType, deref).value.Keys <= keys
  }

  /**
   * `schemas` holds the own schema of `info` as GetComponentsOfStruct writes
   * it, and the schemas of its fields' types.
   */
  ghost predicate OwnSchemaSpec(schemas: map<string, Schema>, info: AnalyzedStruct, deref: bool) {
    var own := SchemaNameOf(info);
    && own in schemas
    && schemas[own].typ == "object"
    && PropsNamed(schemas[own].properties, info.fields)
    && PropsRefer(schemas[own].properties, info.fields)
    && schemas[own].required == RequiredNames(info.fields)
    && NestedWithin(schemas.Keys, info.fields, deref)
  }

  lemma AccumulatedSchema(info: AnalyzedStruct, deref: bool)
    requires UniqueNames(info.fields)
    requires AllDescribable(info, |info.fields|, deref)
    ensures var acc := Accumulate(EntriesOf(info, |info.fields|, deref));
      OwnSchemaSpec(acc.schemas[SchemaNameOf(info) := Schema("object", acc.props, acc.required)], info, deref)
  {
    var es := EntriesOf(info, |info.fields|, deref);
    EntriesOfSpec(info, |info.fields|, deref);
    var acc := Accumulate(es);
    var own := SchemaNameOf(info);
    var schemas := acc.schemas[own := Schema("object", acc.props, acc.required)];
    assert EntryFields(es) == info.fields;
    assert UniqueEntryNames(es);
    PropsNamedOfEntries(es, info.fields);
    PropsReferOfEntries(es, info.fields);
    AccumulateRequired(es);
    NestedOfEntries(es, info.fields, deref, schemas.Keys);
  }

  lemma PropsNamedOfEntries(es: seq<Entry>, fs: seq<AnalyzedField>)
    requires EntryFields(es) == fs
    ensures PropsNamed(Accumulate(es).props, fs)
  {
    AccumulateKeys(es);
    forall nm | nm in Accumulate(es).props ensures exists i :: 0 <= i < |fs| && fs[i].name == nm {
      var j :| 0 <= j < |es| && es[j].field.name == nm;
      assert fs[j] == es[j].field;
    }
    forall i | 0 <= i < |fs| ensures fs[i].name in Accumulate(es).props {
      assert es[i].field.name == fs[i].name;
    }
  }

  lemma PropsReferOfEntries(es: seq<Entry>, fs: seq<AnalyzedField>)
    requires EntryFields(es) == fs && UniqueEntryNames(es)
    requires forall i :: 0 <= i < |es| ==> SchemaRefOf(fs[i].valueType) == Success(es[i].ref)
    ensures PropsRefer(Accumulate(es).props, fs)
  {
    AccumulateValues(es);
    forall i | 0 <= i < |fs| ensures fs[i].name in Accumulate(es).props && SchemaRefOf(fs[i].valueType) == Success(Accumulate(es).props[fs[i].name]) {
      assert es[i].field == fs[i];
    }
  }

  lemma NestedOfEntries(es: seq<Entry>, fs: seq<AnalyzedField>, deref: bool, keys: set<string>)
    requires EntryFields(es) == fs && Accumulate(es).schemas.Keys <= keys
    requires forall i :: 0 <= i < |es| ==> TypeComponentsWith(fs[i].valueType, deref) == Success(es[i].nested)
    ensures NestedWithin(keys, fs, deref)
  {
    AccumulateNested(es);
  }

  // ---------------------------------------------------------------------------
  // The loops of GetComponentsOfType and GetComponentsOfStruct

  /** A failure of the field loop is the failure of every longer prefix. */
  lemma {:induction false} FieldsFailureSticks(d: StructDecl, info: AnalyzedStruct, i: nat, n: nat, deref: bool)
    requires FieldsOf(info, d) && i <= n <= |info.fields|
    requires FieldsComponents(d, info, i, deref).Failure?
    ensures FieldsComponents(d, info, n, deref) == FieldsComponents(d, info, i, deref)
    decreases n
  {
    if n > i {
      FieldsFailureSticks(d, info, i, n - 1, deref);
    }
  }

  /** The error of the first field that cannot be described is the loop's. */
  lemma FieldsStepFailure(d: StructDecl, info: AnalyzedStruct, n: nat, deref: bool)
    requires FieldsOf(info, d) && 0 < n <= |info.fields|
    requires FieldsComponents(d, info, n - 1, deref).Success?
    ensures var f := info.fields[n - 1];
      SchemaRefOf(f.valueType).Failure? ==> FieldsComponents(d, info, n, deref) == Failure(SchemaRefOf(f.valueType).error)
    ensures var f := info.fields[n - 1];
      SchemaRefOf(f.valueType).Success? && TypeComponentsWith(f.valueType, deref).Failure? ==>
        FieldsComponents(d, info, n, deref) == Failure(TypeComponentsWith(f.valueType, deref).error)
  {
  }

  /** The copy loop `for k, v := range newDefs { schemas[k] = v }`, in any order of the keys. */
  method MergeSchemas(into: map<string, Schema>, from: map<string, Schema>) returns (r: map<string, Schema>)
    ensures r == into + from
  {
    r := into;
    var remaining := from.Keys;
    while remaining != {}
      invariant remaining <= from.Keys
      invariant r.Keys == into.Keys + (from.Keys - remaining)
      invariant forall k :: k in r ==> r[k] == if k in from && k !in remaining then from[k] else into[k]
      decreases remaining
    {
      var k :| k in remaining;
      r := r[k := from[k]];
      remaining := remaining - {k};
    }
  }

  /** GetComponentsOfType, with pointers looked through as goTypeToOpenapiSchemaRef does. */
  method GetComponentsOfType(k: Kind) returns (r: Result<map<string, Schema>>)
    ensures r == TypeComponents(k)
    decreases k, 1
  {
    if k.Struct? {
      var info := StructInfoOf(k);
      if info.Failure? {
        return Failure(info.error);
      }
      AnalyzedFieldsOf(k);
      r := GetComponentsOfStruct(k.decl, info.value);
    } else if k.Slice? || k.Ptr? {
      r := GetComponentsOfType(k.elem);
    } else {
      r := Success(map[]);
    }
  }

  /**
   * GetComponentsOfStruct: for each field in order, its reference under its
   * public name, its name among the required ones when it is required, and the
   * schemas of its type; then the struct's own schema.
   */
  method GetComponentsOfStruct(ghost d: StructDecl, info: AnalyzedStruct) returns (r: Result<map<string, Schema>>)
    requires FieldsOf(info, d)
    ensures r == StructComponents(d, info)
    decreases Struct(d), 0
  {
    var schemas: map<string, Schema> := map[];
    if !info.HasContent() {
      return Success(schemas);
    }
    var props: map<string, SchemaRef> := map[];
    var required: seq<string> := [];
    var i := 0;
    while i < |info.fields|
      invariant i <= |info.fields|
      invariant FieldsComponents(d, info, i, true) == Success(StructAcc(props, required, schemas))
    {
      var f := info.fields[i];
      FieldsStep(d, info, i + 1, true);
      FieldsStepFailure(d, info, i + 1, true);
      var ref := SchemaRefOf(f.valueType);
      if ref.Failure? {
        FieldsFailureSticks(d, info, i + 1, |info.fields|, true);
        return Failure(ref.error);
      }
      props := props[f.name := ref.value];
      if f.IsRequired() {
        required := required + [f.name];
      } else {
        assert required + [] == required;
      }
      assert FieldOf(f, d);
      assert d.fields[f.index] in d.fields;
      var newDefs := GetComponentsOfType(f.valueType);
      if newDefs.Failure? {
        FieldsFailureSticks(d, info, i + 1, |info.fields|, true);
        return Failure(newDefs.error);
      }
      schemas := MergeSchemas(schemas, newDefs.value);
      i := i + 1;
    }
    schemas := schemas[SchemaNameOf(info) := Schema("object", props, required)];
    r := Success(schemas);
  }

  // ---------------------------------------------------------------------------
  // GetComponentsOfType as written: a pointer emits nothing

  /**
   * As written, GetComponentsOfType has no case for a pointer, while
   * goTypeToOpenapiSchemaRef looks through one. A struct whose one field is a
   * slice of pointers to another struct then gets a property that refers to
   * that struct's schema, and the schemas emitted do not hold it; looking
   * through the pointer, as TypeComponents does, leaves nothing dangling.
   */
  lemma ReferableSingleField(d: StructDecl, inner: Kind)
    requires |d.fields| == 1 && !IsBlank(d.fields[0]) && d.fields[0].kind == Slice(Ptr(inner))
    requires Referable(inner)
    ensures Referable(Struct(d))
  {
    assert Referable(Slice(Ptr(inner)));
    assert forall i :: 0 <= i < |d.fields| ==> d.fields[i] == d.fields[0];
  }

  /** The reference and, with pointers not looked through, the schemas of `[]*T`. */
  lemma SliceOfPointersRef(inner: Kind)
    requires inner.Struct? && Analyze(inner).Success?
    ensures SchemaRefOf(Slice(Ptr(inner))) == Success(ArrayRef(Ref(SchemaNameOf(Analyze(inner).value))))
    ensures TypeComponentsWith(Slice(Ptr(inner)), false) == Success(map[])
  {
    assert SchemaRefOf(inner) == Success(Ref(SchemaNameOf(Analyze(inner).value)));
    assert SchemaRefOf(Ptr(inner)) == SchemaRefOf(inner);
  }

  lemma SliceOfPointersDangles(d: StructDecl, inner: Kind)
    requires |d.fields| == 1 && !IsBlank(d.fields[0]) && d.fields[0].kind == Slice(Ptr(inner))
    requires Analyze(Struct(d)).Success? && inner.Struct? && Analyze(inner).Success? && Referable(inner)
    requires SchemaNameOf(Analyze(inner).value) != SchemaNameOf(Analyze(Struct(d)).value)
    ensures TypeComponentsWith(Struct(d), false).Success?
    ensures !Closed(TypeComponentsWith(Struct(d), false).value)
    ensures TypeComponents(Struct(d)).Success? ==> Closed(TypeComponents(Struct(d)).value)
  {
    var k := Struct(d);
    var info := Analyze(k).value;
    var innerName := SchemaNameOf(Analyze(inner).value);
    var own := SchemaNameOf(info);
    AnalyzedCount(k);
    assert |info.fields| == 1;
    AnalyzedFieldsOf(k);
    assert FieldOf(info.fields[0], d);
    var f := info.fields[0];
    assert f.valueType == Slice(Ptr(inner));
    SliceOfPointersRef(inner);
    FieldsStep(d, info, 1, false);
    var acc := AddField(StructAcc(map[], [], map[]), f, ArrayRef(Ref(innerName)), map[]);
    assert FieldsComponents(d, info, 1, false) == Success(acc);
    var m := acc.schemas[own := Schema("object", acc.props, acc.required)];
    assert TypeComponentsWith(k, false) == Success(m);
    assert m.Keys == {own};
    assert RefNames(m[own].properties[f.name]) == {innerName};
    assert !RefsWithin(m[own].properties, m.Keys);
    ReferableSingleField(d, inner);
    if TypeComponents(k).Success? {
      TypeComponentsClosed(k);
    }
  }
}
