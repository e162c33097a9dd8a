# apio: a verified model of the marshalling core and the OpenAPI 3 generator

apio is a Go library for typed HTTP endpoints. In apio, an endpoint's input has four facets, each a Go struct type: headers, path, query and body. Its output has two: headers and body. Reflection does the rest:

- **The introspector** (`AnalyzeStruct`) turns a struct type into a list of analyzed fields. Each field gets its public name and its lower-case, kebab-case lookup key, and the list comes with three indices over them.
- **The input marshaller** has three parts:
  - Binding plans: `calcHeaderBindings`, `calcPathBindings` and `calcQueryBindings` derive, from the facet types, a table of setters and the route pattern of the path.
  - `ToPayload` turns a typed input into a wire payload: a header map, a path string and map, a query map and a JSON body.
  - `parse` turns a payload back into typed values.
- **The output marshaller:**
  - `OkCode`, `GetHeaders` and `GetBody` send an output.
  - `SetHeaders`, `SetBody` and `SetAll` receive one.
- **The OpenAPI 3 generator** (`ToOpenApi3`) builds a document from a list of endpoints. The document has:
  - servers;
  - paths, with one operation per endpoint and its header, path and query parameters;
  - component schemas, closed over nested struct types.

## How the model is built

- **Go types are data.** A reflected type is a `Kind`, and a struct type is a `StructDecl` with its package path, name and declared fields (name, tags, kind). A value is a `Value`.
- **The codecs are parameters.** The JSON codec and `fmt.Sprintf("%v")` are opaque functions carried in a `Codec` record, so every result holds for any codec. The round-trip lemmas state what they need of the codec as hypotheses: a field value decodes from what it encodes to.
- **Panics become failures.** A panic becomes `Failure(DeclarationError(..))` when a declaration is at fault, and `Failure(InternalError(..))` when the runtime panics. An error returned to the caller of a request is `Failure(BadRequest(..))`.
- **Loops become verified methods.** Each Go `for` loop becomes a Dafny `method` with a `while` or `for` loop. It is proved equal to a recursive specification function (`ensures r == Paths(es)`, `ensures out == Kebab(input)`). The properties of that function are lemmas.
- **Map iteration order is free.** A loop over a Go map picks each next key nondeterministically (`:|`), so the contracts hold for every iteration order.
- **Text is ASCII.** Case rules are ASCII, and white space is the Latin-1 set. "## Left out" lists what depends on this.
- **The cache is a class.** The `sync.Map` cache of `AnalyzeStruct` is the class `Analysis.StructCache`, with a map field that `AnalyzeStruct` updates.

The files follow the Go files:

| file | models |
|---|---|
| `wrappers.dfy`, `strings.dfy`, `reflect.dfy` | errors and results; the `strings` and `strconv` functions used; types, values and the codec record |
| `analysis.dfy` | `pkg/apio/apio_analysis.go` |
| `input.dfy`, `input_roundtrip.dfy` | `pkg/apio/apio_input.go`, and `parse` after `ToPayload` |
| `output.dfy` | `pkg/apio/apio_output.go` |
| `openapi3.dfy`, `openapi3_document.dfy` | `pkg/apio/openapi3/apioapi3.go` (patterns, schema names, type schemas; then parameters, paths, components, the document) |
| `examples.dfy` | the concrete cases of the repository's tests |

## Model

| member | source | states |
|---|---|---|
| Analysis.CamelCaseToKebabCase | pkg/apio/apio_analysis.go:131-147 | the loop computes the kebab form: each character lower-cased, with a dash before an upper-case letter that follows a lower-case one |
| Analysis.KebabNoUpper | pkg/apio/apio_analysis.go:131-147 | a lookup key never holds an upper-case letter |
| Analysis.KebabOfNoUpper | pkg/apio/apio_analysis.go:131-147 | a name without upper-case letters (such as a `name` tag in snake case) is its own lookup key |
| Analysis.KebabIdempotent | pkg/apio/apio_analysis.go:131-147 | converting a lookup key again changes nothing |
| Analysis.KebabLength | pkg/apio/apio_analysis.go:131-147 | the key is the name's length plus one per lower-to-upper boundary |
| Analysis.KebabDashes | pkg/apio/apio_analysis.go:131-147 | the key's dashes are the name's own dashes plus one per boundary |
| Analysis.KebabWithoutDashes | pkg/apio/apio_analysis.go:131-147 | without a boundary the key is plain lower-casing |
| Analysis.DashCountPositive | pkg/apio/apio_analysis.go:136-143 | a lower-case letter directly before an upper-case one inserts a dash |
| Analysis.KebabIsToLowerIff | pkg/apio/apio_analysis.go:131-147 | the key equals the lower-cased name exactly when the name has no lower-to-upper boundary |
| Analysis.AnalyzeFieldFacts | pkg/apio/apio_analysis.go:100-129 | an analyzed field keeps its declared name and index; the `name` tag, when present, is its name and override name; its lookup key is the kebab form of its name; it is optional exactly when it is a pointer, whose element type is its value type |
| Analysis.AnalyzeOrPanic | pkg/apio/apio_analysis.go:149-201 | a caller that panics on a failed analysis succeeds exactly when the analysis does, with its result |
| Analysis.IndexOfKeys | pkg/apio/apio_analysis.go:171-189 | an index of the analyzed fields has exactly the keys of the fields |
| Analysis.IndexOfValues | pkg/apio/apio_analysis.go:171-189 | every entry of an index is one of the fields, filed under its own key |
| Analysis.IndexOfLastWins | pkg/apio/apio_analysis.go:171-189 | a field that no later field shadows is found under its key |
| Analysis.LookupDistinct | pkg/apio/apio_analysis.go:182-188 | with distinct lookup keys, every analyzed field is found under its own lookup key |
| Analysis.BoundFieldsSound | pkg/apio/apio_analysis.go:171-180 | only non-blank fields are analyzed, each at its own index |
| Analysis.BoundFieldsComplete | pkg/apio/apio_analysis.go:171-180 | every field that is not `_` is analyzed |
| Analysis.BoundFieldsOrdered | pkg/apio/apio_analysis.go:171-189 | the analyzed fields keep declaration order, one per non-blank field |
| Analysis.IndexedStep | pkg/apio/apio_analysis.go:171-189 | one non-blank field extends the field list and all three indices by itself |
| Analysis.DistinctAppend | pkg/apio/apio_analysis.go:182-188 | appending a field keeps the lookup keys distinct exactly when its key is new |
| Analysis.AnalyzePrefixSpec | pkg/apio/apio_analysis.go:171-189 | the loop succeeds exactly when the lookup keys of the fields so far are distinct, and then builds the indexed list |
| Analysis.AnalyzeDescribes | pkg/apio/apio_analysis.go:149-201 | a non-struct is refused; a struct is analyzed exactly when its lookup keys are distinct, and its analysis then describes the declaration |
| Analysis.DescribedField | pkg/apio/apio_analysis.go:191-198 | each field of a successful analysis is the analysis of a non-blank declared field and is found under its lookup key |
| Analysis.AnalyzeFailureSticks | pkg/apio/apio_analysis.go:185-187 | once a duplicate key is met, the analysis fails with that error whatever follows |
| Analysis.StructCache.constructor | pkg/apio/apio_analysis.go:157-164 | the cache starts empty |
| Analysis.StructCache.AnalyzeStruct | pkg/apio/apio_analysis.go:149-201 | a non-struct is refused and nothing is cached; a cached type returns the cached analysis; otherwise the analysis is computed and cached only when it succeeds |
| Analysis.AnalyzeTwice | pkg/apio/apio_analysis.go:157-164 | a second call returns what a successful first call returned |
| Analysis.SameKeySharesAnalysis | pkg/apio/apio_analysis.go:157-164 | two struct types with the same package path and name share one cache entry: after the first succeeds, the second returns the first's analysis |
| Analysis.Assign | pkg/apio/apio_analysis.go:51-69 | a nil value is refused: for a required field as a request error, for a pointer field as an internal error, because `reflect.Value.Set` panics on the zero `Value`; a value is stored in the field's own slot and nothing else changes |
| Analysis.AssignThenGetPtr | pkg/apio/apio_analysis.go:51-89 | GetPtr reads back what Assign stored, a nil pointer reading as absent |
| Analysis.RequiredNeverNil | pkg/apio/apio_analysis.go:71-89 | a required field always reads as present |
| Input.NameTableFresh | pkg/apio/apio_input.go:372-378 | a named field with a new name is bound to its own setter and keeps the names distinct |
| Input.NameTableTaken | pkg/apio/apio_input.go:372-374 | a named field whose name is already bound breaks distinctness |
| Input.NameTableBlank | pkg/apio/apio_input.go:360-370 | a `_` field binds nothing |
| Input.PathPlanBindings | pkg/apio/apio_input.go:342-383 | the path plan succeeds exactly when the declared names of the named fields are distinct, and then binds each name to its field |
| Input.PathPlanPattern | pkg/apio/apio_input.go:355-380 | the flat path is the template of the fields, rendered in order: `/literal` for a tagged `_`, `/*` for an untagged one, `/:Name` for a named field |
| Input.CalcPathBindings | pkg/apio/apio_input.go:342-383 | the loop computes the path plan, and the panic on a non-struct or a taken name |
| Input.QueryPlanBindings | pkg/apio/apio_input.go:385-419 | the query plan succeeds exactly when the names are distinct, and then binds each name to its field |
| Input.QueryPlanPattern | pkg/apio/apio_input.go:385-419 | the query's flat path lists the bound names, and is empty exactly when nothing is bound |
| Input.CalcQueryBindings | pkg/apio/apio_input.go:385-419 | the loop computes the query plan |
| Input.HeaderPlanPrefixSpec | pkg/apio/apio_input.go:315-340 | with distinct lookup keys the header plan binds exactly the lookup keys of the named fields, each to its field's setter |
| Input.HeaderPlanTable | pkg/apio/apio_input.go:315-340 | the header plan fails exactly when the analysis does, and is otherwise a lookup-key table of the header type |
| Input.CalcHeaderBindings | pkg/apio/apio_input.go:315-340 | the loop computes the header plan |
| Input.Unquote | pkg/apio/apio_input.go:89-95 | serializeValue removes at most one leading and one trailing quote and nothing else |
| Input.UnquoteExact | pkg/apio/apio_input.go:89-95 | serializeValue removes exactly one leading quote when there is one, then exactly one trailing quote when one is left, and nothing else |
| Input.SerializeHeaders | pkg/apio/apio_input.go:97-122 | the header loop of ToPayload computes the header map |
| Input.SerializePath | pkg/apio/apio_input.go:124-153 | the path loop of ToPayload computes the path string and map |
| Input.SerializeQuery | pkg/apio/apio_input.go:155-182 | the query loop of ToPayload computes the query map |
| Input.ToPayload | pkg/apio/apio_input.go:82-191 | ToPayload marshals the body and runs the three loops, failing with the first error |
| Input.HeadersPayloadSpec | pkg/apio/apio_input.go:97-122 | the header map has only lookup keys of named fields, and each named field's serialised value sits under its key, absent when nil |
| Input.QueryPayloadKeys | pkg/apio/apio_input.go:155-182 | each query key holds one value and is the public name of a named, non-nil field |
| Input.QueryPayloadCover | pkg/apio/apio_input.go:155-182 | every named, non-nil query field has an entry under its public name |
| Input.QueryPayloadValues | pkg/apio/apio_input.go:155-182 | with distinct public names, each named field's entry is its serialised value, and a nil field has none |
| Input.PathPayloadKeys | pkg/apio/apio_input.go:124-153 | the path map holds only declared names of named fields |
| Input.PathPayloadMap | pkg/apio/apio_input.go:124-153 | with distinct names, the path map sends each named field to its serialised value |
| Input.PathPayloadRender | pkg/apio/apio_input.go:124-153 | the path string is the template with each parameter replaced by its value from the path map |
| Input.TemplateParams | pkg/apio/apio_input.go:355-380 | the template has one segment per declared field, in order |
| Input.UntaggedBlankRejected | pkg/apio/apio_input.go:133-140 | an untagged `_` path field makes ToPayload fail |
| Input.PathStrMatchesFlatPath | pkg/apio/apio_input.go:124-153 | the path string ToPayload builds is an instance of the route pattern calcPathBindings builds |
| Input.ParseHeader | pkg/apio/apio_input.go:206-250 | one header binding: the outcome for that field, and a failure is a bad request |
| Input.ParseHeaders | pkg/apio/apio_input.go:206-250 | in any key order, the header loop succeeds exactly when every bound header is well-formed, and then yields the parsed header items |
| Input.ParsePath | pkg/apio/apio_input.go:252-263 | in any key order, the path loop succeeds exactly when every bound path parameter is present and parses, and then yields the parsed items |
| Input.ParseQuery | pkg/apio/apio_input.go:265-281 | in any key order, the query loop succeeds exactly when every bound query value parses and required ones are present, and then yields the parsed items |
| Input.DecodeBody | pkg/apio/apio_input.go:283-296 | the body is decoded only when the body type has a field; otherwise it is the zero value |
| Input.PlannedTables | pkg/apio/apio_input.go:197-205 | the plans computed from the facet types are the binding tables parse relies on |
| Input.Parse | pkg/apio/apio_input.go:197-299 | parse succeeds exactly when every facet parses, with the parsed input; it fails with a bad request, or internally on a non-struct body |
| Input.TerminatedJoin | pkg/apio/apio_input.go:20-31 | appending `&` after every pair is joining with `&` plus one trailing `&` |
| Input.QueryString | pkg/apio/apio_input.go:20-31 | an empty query gives the empty string; otherwise `?` and the escaped pairs, joined by `&`, with the trailing `&` cut |
| Input.QueryStringShape | pkg/apio/apio_input.go:20-31 | a query string starts with `?` and does not end with `&` when escaping removes every `&` |
| Input.QueryStringSplits | pkg/apio/apio_input.go:20-31 | splitting the query string after `?` at `&` gives back its pairs |
| InputRoundTrip.ParseOkNeeds | pkg/apio/apio_input.go:197-299 | a successful parse had at most one value per bound header and query name, exactly one for a non-pointer field, every path name, and a struct body |
| InputRoundTrip.EmptyBodyIgnored | pkg/apio/apio_input.go:283-296 | with a field-less body type, the body bytes make no difference and the body parses as its zero value |
| InputRoundTrip.SetFromSerialized | pkg/apio/apio_input.go:89-95 | a field value decodes from the text serializeValue makes of it |
| InputRoundTrip.HeaderFieldRoundTrip | pkg/apio/apio_input.go:97-122 | the header entry ToPayload writes for a field parses back to the field's value |
| InputRoundTrip.HeadersRoundTrip | pkg/apio/apio_input.go:206-250 | header entries for every bound field parse back to the header items |
| InputRoundTrip.PathRoundTrip | pkg/apio/apio_input.go:252-263 | path entries for every named field parse back to the path items |
| InputRoundTrip.QueryRoundTrip | pkg/apio/apio_input.go:265-281 | query entries for every named, untagged field parse back to the query items |
| InputRoundTrip.UntaggedNamesDistinct | pkg/apio/apio_input.go:155-182 | without name tags, distinct declared names are distinct public names |
| InputRoundTrip.HeadersPayloadEntries | pkg/apio/apio_input.go:97-122 | the header map ToPayload builds holds the entry of every bound header field |
| InputRoundTrip.PayloadFacets | pkg/apio/apio_input.go:82-191 | a payload ToPayload built is the body's encoding, the header entries, and what the path and query loops left |
| InputRoundTrip.BodyRoundTrip | pkg/apio/apio_input.go:283-296 | the body ToPayload encodes decodes back to the body value |
| InputRoundTrip.ParseOfPayload | pkg/apio/apio_input.go:82-299 | for codecs that round-trip, header names kept by their key, and query fields without name tags, parse of ToPayload's payload succeeds and gives back the input |
| InputRoundTrip.RenamedQueryFieldLost | pkg/apio/apio_input.go:155-182 | a query field with a `name` tag is sent under the tag and looked up under the declared name, so parse fails |
| Output.Wrap | pkg/apio/apio_output.go:70-80 | wrapping keeps the kind of error and prefixes its message |
| Output.OkCodeSpec | pkg/apio/apio_output.go:42-52 | OkCode is 204 exactly when the body type has no analyzed field, else 200, and GetBody then sends nothing or the body's encoding |
| Output.BlankBodyRefused | pkg/apio/apio_output.go:54-68 | a body type with only a `_` field is sent as 204 with no bytes, yet SetBody as written tries to decode the empty bytes and fails |
| Output.SetBodyIgnoresBytes | pkg/apio/apio_output.go:54-68 | the corrected SetBody keeps the output for a body type without analyzed fields |
| Output.AllBlankIsZero | pkg/apio/apio_output.go:54-68 | a struct value whose fields are all `_` is the zero value |
| Output.GetBodySetBody | pkg/apio/apio_output.go:54-68 | the bytes GetBody sends, given to SetBody, set the body that was sent |
| Output.GetHeaders | pkg/apio/apio_output.go:143-165 | the loop computes the header map |
| Output.HeadersOfSpec | pkg/apio/apio_output.go:143-165 | the sent headers are exactly the public names of the named fields, each with the field's formatted value |
| Output.RequiredKeysSpec | pkg/apio/apio_output.go:90-95 | the required set holds exactly the lookup keys of the required fields |
| Output.HeaderValueStep | pkg/apio/apio_output.go:98-123 | corrected step: a header that names no field changes nothing; a value that does not parse is a bad request; a parsed value is stored in the field's slot and the field's key leaves the required set |
| Output.PointerHeaderPanics | pkg/apio/apio_output.go:116-120 | for a pointer header field the code as written panics; the corrected step stores the parsed value and clears the key from the required set |
| Output.CollectRequired | pkg/apio/apio_output.go:90-95 | the first loop computes the required lookup keys |
| Output.SetHeaderValues | pkg/apio/apio_output.go:99-123 | the inner loop folds the values of one header (corrected pointer store) |
| Output.SetHeaders | pkg/apio/apio_output.go:82-130 | (corrected pointer store) in some order of the header names, SetHeaders computes the fold over them and the final required check; in every order it succeeds exactly when all known values parse and all required keys are sent, fails only with a bad request, and keeps the body |
| Output.FoldOutcome | pkg/apio/apio_output.go:98-123 | (corrected pointer store) the header loop succeeds exactly when every value of a known header parses, and fails only with a bad request |
| Output.FoldSuccess | pkg/apio/apio_output.go:98-123 | (corrected pointer store) after the loop the required set is empty exactly when every required key was sent; fields not sent are unchanged; with case-distinct names each set field holds its header's last value |
| Output.KeysFoldBadRequest | pkg/apio/apio_output.go:98-123 | the outer loop fails only with a bad request |
| Output.ValuesFoldBadRequest | pkg/apio/apio_output.go:99-123 | the inner loop fails only with a bad request |
| Output.SetHeadersSpec | pkg/apio/apio_output.go:82-130 | (corrected pointer store) SetHeaders succeeds exactly when all known values parse and all required keys are sent; it changes only the headers it was sent, to their last values, and keeps the body |
| Output.SetAll | pkg/apio/apio_output.go:70-80 | (corrected SetHeaders and SetBody) SetAll is SetHeaders then SetBody, with their errors wrapped; it succeeds only when the header type analyzes, all known header values parse and all required keys are sent |
| Output.ToPayload | pkg/apio/apio_output.go:132-141 | the payload is the header map and the body bytes, or the failing body error |
| Output.SentHeadersParse | pkg/apio/apio_output.go:143-165 | every value GetHeaders sends parses back into the field it came from |
| Output.SentHeadersCover | pkg/apio/apio_output.go:143-165 | GetHeaders sends every required field under a name that is its lookup key up to case |
| Output.SentHeadersDistinct | pkg/apio/apio_output.go:143-165 | no two names GetHeaders sends are equal up to case |
| Output.GetHeadersSetHeaders | pkg/apio/apio_output.go:82-165 | the headers GetHeaders sends, given to SetHeaders in any order, set the headers that were sent |
| Output.ToPayloadSetAll | pkg/apio/apio_output.go:70-165 | (corrected SetHeaders and SetBody) the payload ToPayload sends, given to SetAll, reproduces the output that was sent |
| Output.CamelHeaderLost | pkg/apio/apio_output.go:82-165 | a required header field ContentType without a name tag is sent as "ContentType", which lower-cases to "contenttype" and not to its lookup key "content-type", so SetHeaders refuses it |
| OpenApi3.ConvertPattern | pkg/apio/openapi3/apioapi3.go:80-95 | the loop computes the OpenAPI pattern |
| OpenApi3.AppendSegment | pkg/apio/openapi3/apioapi3.go:84-93 | one piece is trimmed and skipped when empty; a `:name` piece becomes `/{name}` and any other `/piece` |
| OpenApi3.PatternPrefixSegments | pkg/apio/openapi3/apioapi3.go:80-95 | the result is the converted non-empty segments, each after a slash |
| OpenApi3.OpenApiPatternShaped | pkg/apio/openapi3/apioapi3.go:80-95 | the converted pattern is empty or starts with `/`, and has no empty segment and no trailing slash |
| OpenApi3.SlashJoinedConverted | pkg/apio/openapi3/apioapi3.go:80-95 | slash-joined clean segments are already in OpenAPI form |
| OpenApi3.OpenApiPatternIdempotent | pkg/apio/openapi3/apioapi3.go:80-95 | converting a converted pattern changes nothing |
| OpenApi3.Sanitize | pkg/apio/openapi3/apioapi3.go:334-349 | ASCII letters, digits, `_` and `-` are kept and every other character becomes `_`, keeping the length |
| OpenApi3.SanitizeFixed | pkg/apio/openapi3/apioapi3.go:334-349 | a name is unchanged exactly when it holds only allowed characters |
| OpenApi3.SanitizeIdempotent | pkg/apio/openapi3/apioapi3.go:334-349 | sanitising twice is sanitising once |
| OpenApi3.LastSegmentSpec | pkg/apio/openapi3/apioapi3.go:334-349 | the package's last segment has no slash and ends the package path |
| OpenApi3.SchemaNameOfSpec | pkg/apio/openapi3/apioapi3.go:334-349 | a schema name is the package's last segment, `_` and the type name, all sanitised, with no slash and only allowed characters |
| OpenApi3.Deref | pkg/apio/openapi3/apioapi3.go:97-163 | looking through every pointer leaves a non-pointer kind |
| OpenApi3.OpenapiTypeSpec | pkg/apio/openapi3/apioapi3.go:122-163 | pointers are looked through; the type is one of the JSON types, `array` exactly for slices and `object` for structs and interfaces; unsupported kinds panic |
| OpenApi3.SchemaRefOfSpec | pkg/apio/openapi3/apioapi3.go:97-120 | a slice refers to an array of its element's reference, a struct to `#/components/schemas/` and its schema name, anything else to its JSON type, which agrees with goTypeToOpenapiType |
| OpenApi3.TypeComponentsClosed | pkg/apio/openapi3/apioapi3.go:272-285 | for types without dangling nesting, every `$ref` among the emitted schemas, and the type's own reference, names an emitted schema |
| OpenApi3.StructComponentsClosed | pkg/apio/openapi3/apioapi3.go:287-311 | a struct's schemas are closed and hold its own schema when it has fields |
| OpenApi3.RequiredNamesSpec | pkg/apio/openapi3/apioapi3.go:295-307 | the `required` list names exactly the required fields |
| OpenApi3.FieldsStep | pkg/apio/openapi3/apioapi3.go:293-308 | one field adds its property, its required name when required, and its nested schemas |
| OpenApi3.StructComponentsSpec | pkg/apio/openapi3/apioapi3.go:287-311 | a struct without fields emits nothing; otherwise it succeeds exactly when every field's type can be described, and emits its own schema: one property per field with its reference, and the required names |
| OpenApi3.FieldsFailureSticks | pkg/apio/openapi3/apioapi3.go:293-308 | the first field that cannot be described fails the whole struct |
| OpenApi3.MergeSchemas | pkg/apio/openapi3/apioapi3.go:300-302 | copying one schema map into another, in any key order, is map union with the copied entries winning |
| OpenApi3.GetComponentsOfType | pkg/apio/openapi3/apioapi3.go:272-285 | (corrected) the method computes the schemas of a type, looking through pointers, which the code as written does not |
| OpenApi3.GetComponentsOfStruct | pkg/apio/openapi3/apioapi3.go:287-311 | the method computes the schemas of a struct |
| OpenApi3.SliceOfPointersRef | pkg/apio/openapi3/apioapi3.go:97-120 | a `[]*T` field refers to T's schema, yet the code as written emits no schema for it |
| OpenApi3.SliceOfPointersDangles | pkg/apio/openapi3/apioapi3.go:272-311 | a struct with a `[]*T` field gets a dangling `$ref` as written; the corrected schemas are closed |
| OpenApi3Document.ParamsPrefixSpec | pkg/apio/openapi3/apioapi3.go:165-210 | the parameters of a group succeed exactly when each listed field has a JSON type, and are one per listed field, in order, with its name as name and description, its location, required flag and type |
| OpenApi3Document.ContentTypeSkipped | pkg/apio/openapi3/apioapi3.go:168-183 | no header parameter has lookup key `content-type`, and every other header field is listed |
| OpenApi3Document.AllListed | pkg/apio/openapi3/apioapi3.go:185-207 | every path and query field is listed |
| OpenApi3Document.AppendParameters | pkg/apio/openapi3/apioapi3.go:168-207 | the loop of one group appends its parameters, or fails with the first unsupported type |
| OpenApi3Document.GetParameters | pkg/apio/openapi3/apioapi3.go:165-210 | the method computes the parameter list |
| OpenApi3Document.ParametersSpec | pkg/apio/openapi3/apioapi3.go:165-210 | the parameters are the header ones, then the path ones, then the query ones, and succeed exactly when each group does |
| OpenApi3Document.PathKeySpec | pkg/apio/openapi3/apioapi3.go:215-220 | as written the path key is missing exactly when the converted pattern is empty; the corrected key always starts with `/` and has no empty segment |
| OpenApi3Document.RootPathPanics | pkg/apio/openapi3/apioapi3.go:215-220 | `/` converts to the empty path, where the code as written panics, and the corrected key is `/` |
| OpenApi3Document.PathsSpec | pkg/apio/openapi3/apioapi3.go:212-270 | (corrected path key) the paths succeed exactly when every operation can be built; they are keyed by the endpoints' paths and, under each, by the lower-cased methods of its endpoints; the last endpoint with a route gives its operation |
| OpenApi3Document.PathsSuccess | pkg/apio/openapi3/apioapi3.go:212-270 | the paths succeed exactly when every operation does |
| OpenApi3Document.PathsKeys | pkg/apio/openapi3/apioapi3.go:212-270 | the path items are exactly the endpoints' paths |
| OpenApi3Document.PathsMethods | pkg/apio/openapi3/apioapi3.go:212-270 | the methods under a path are exactly the lower-cased methods of its endpoints |
| OpenApi3Document.PathsLast | pkg/apio/openapi3/apioapi3.go:212-270 | the operation under a route is that of the last endpoint with that route |
| OpenApi3Document.GetPaths | pkg/apio/openapi3/apioapi3.go:212-270 | (corrected path key) the loop computes the paths |
| OpenApi3Document.PathsStep | pkg/apio/openapi3/apioapi3.go:214-267 | one endpoint either fails the paths with its error or files its operation under its route |
| OpenApi3Document.GetRoute | pkg/apio/openapi3/apioapi3.go:215-222 | the route is the corrected path key and the lower-cased method |
| OpenApi3Document.GetOperation | pkg/apio/openapi3/apioapi3.go:223-266 | the method computes the operation of an endpoint |
| OpenApi3Document.OperationOfSpec | pkg/apio/openapi3/apioapi3.go:223-266 | an operation has the endpoint's parameters; a request body exactly when the input body has fields, referring to its schema; and one response, 200 with the output schema or 204 with no content |
| OpenApi3Document.OperationFailsFirstOnOutput | pkg/apio/openapi3/apioapi3.go:225-227 | an output body that does not analyze fails the operation with that error |
| OpenApi3Document.ComponentsPrefixSpec | pkg/apio/openapi3/apioapi3.go:313-332 | merging the endpoints' schemas succeeds exactly when each does, holds every name one of them has and nothing else, and is closed when each is |
| OpenApi3Document.EndpointComponentsSpec | pkg/apio/openapi3/apioapi3.go:316-329 | an endpoint's schemas hold its bodies' schemas, and are closed for body types without dangling nesting |
| OpenApi3Document.OwnSchemaPresent | pkg/apio/openapi3/apioapi3.go:287-311 | a struct with fields has its own schema among those emitted for it |
| OpenApi3Document.ApiComponentsSpec | pkg/apio/openapi3/apioapi3.go:313-332 | an API's schemas succeed exactly when each endpoint's do, hold every endpoint's body schemas, and are closed when the body types have no dangling nesting |
| OpenApi3Document.GetComponentsOfApi | pkg/apio/openapi3/apioapi3.go:313-332 | the loop computes the `schemas` component |
| OpenApi3Document.ServerUrlFields | pkg/apio/openapi3/apioapi3.go:59-65 | a server URL splits at `:` back into scheme, `//host` and port-and-base-path, and its port part is the port in decimal |
| OpenApi3Document.ToOpenApi3 | pkg/apio/openapi3/apioapi3.go:57-78 | the method computes the document: version 3.0.0, the API's title, description and version, the servers in order, then the paths, then the components |
| OpenApi3Document.DocumentRefsResolve | pkg/apio/openapi3/apioapi3.go:57-78 | every body `$ref` of every operation names a schema of the document's components, and the components are closed when no body type nests dangling |
| OpenApi3Document.OperationRefs | pkg/apio/openapi3/apioapi3.go:223-266 | an operation's `$ref`s are within any schemas that hold its bodies' |
| Examples.KebabOfRequiredField | pkg/apio/apio_analysis_test.go:10-35 | the lookup key of RequiredField is `required-field` |
| Examples.KebabOfOptionalField | pkg/apio/apio_analysis_test.go:12-45 | the `name` tag `optional_field` is its own lookup key |
| Examples.KebabOfContentType | pkg/apio/openapi3/apioapi3_slice_test.go:14-17 | the header named `Content-Type` has lookup key `content-type`, which GetParameters skips |
| Examples.UserPathPlan | pkg/apio/openapi3/apioapi3_slice_test.go:19-22 | the test's path type has route pattern `/users/:User` |
| Examples.UserPathKey | pkg/apio/openapi3/apioapi3_slice_test.go:110 | the test endpoint's OpenAPI path is `/users/{User}`, the key of the expected document's `paths` |
| Examples.SchemaNameOfUser | pkg/apio/openapi3/apioapi3_slice_test.go:177 | the test's User struct in package `.../openapi3` has schema name `openapi3_User`, the expected document's component name |
| Examples.ServerOfTestServer | pkg/apio/openapi3/apioapi3_slice_test.go:103-108 | the test server's URL is `https://api.example.com:443/api/v1` and its description `My test server - My test server description` |

## Left out

- **Reflection itself:**
  - Go's reflection is not modelled. A type is an explicit `StructDecl` and a value an explicit `Value`.
  - Generic type parameters become `Kind` arguments.
  - Interface values (`EndpointInputBase`, `EndpointOutputBase`) become the records they wrap.
- **Codecs:**
  - `encoding/json`, `fmt.Sprintf("%v")`, `url.QueryEscape` and the string parsers are opaque functions of the `Codec` record.
  - Their behaviour enters only as hypotheses of the round-trip lemmas.
  - `getStringParsePtrFn` (try the quoted text, then the raw text) is folded into `Codec.unmarshal`.
- **Field setters:**
  - `getFromStringHeaderFieldSetter`, `getFromStringPathFieldSetter` and `getFromStringQueryFieldSetter`, which the binding plans install (`pkg/apio/apio_input.go:335`, `:378`, `:414`), are not part of this model.
  - `Input.SetFromString` states what the model assumes of them. A present string is parsed into the field's type with `Codec.unmarshal`, and a failed parse is a bad request. An absent string leaves a pointer field nil (`Nil`) and is a bad request ("missing required parameter") for any other field.
  - These setters do not go through `Analysis.Assign`. The nearby `getFromStringFieldSetter` (`pkg/apio/apio_parse_functions.go:11-25`) stores the parsed value with `target.Set(...Elem())`, which is how `Input.SetFromString` stores it.
- **Unicode case and space rules:**
  - `Strings.ToLowerChar`, `Strings.IsUpper` and `Strings.IsLower` follow ASCII rules, and `Strings.IsSpace` covers only Latin-1 white space. Go's `unicode.IsUpper`, `unicode.ToLower`, `strings.ToLower` and `strings.TrimSpace` use the full Unicode tables.
  - So the model agrees with Go only for ASCII names and ASCII or Latin-1 white space. For example, Go turns the field name `ÜberName` into the lookup key `über-name`, while `Analysis.Kebab` gives `Über-name`.
  - The members that depend on this are:
    - `Analysis.Kebab` and `Analysis.CamelCaseToKebabCase`, and with them every lookup key (`AnalyzeField`, `Analyze`, `StructCache.AnalyzeStruct`);
    - the case-insensitive header matching of `Output.SetHeaders`, `Output.HeaderValueStep` and `Input.ParseHeaders`;
    - the lower-cased method keys of `OpenApi3Document.GetPaths` and `OpenApi3Document.GetRoute`;
    - the trimmed segments of `OpenApi3.ConvertPattern`.
- **Members that model the corrected code.** These members use the corrected definition of a Findings row, not the code as written:
  - `Output.HeaderValueStep`, `Output.SetHeaderValues`, `Output.SetHeaders`, `Output.FoldOutcome`, `Output.FoldSuccess` and `Output.SetHeadersSpec` store a pointer header as `Analysis.Assign` does. The as-written step is `Output.HeaderValueStepAsWritten`.
  - `Output.SetAll` and `Output.ToPayloadSetAll` use the corrected `Output.SetBody`, which skips decoding when the body type has no analyzed field. The as-written one is `Output.SetBodyAsWritten`.
  - `OpenApi3.GetComponentsOfType` and every member built on `OpenApi3.TypeComponents` look through pointers. The as-written schemas are `OpenApi3.TypeComponentsWith(k, false)`.
  - `OpenApi3Document.GetPaths`, `OpenApi3Document.PathsSpec` and `OpenApi3Document.GetRoute` use the corrected `OpenApi3Document.PathKey`, which gives `/` for an empty converted path. The as-written key is `OpenApi3Document.PathKeyAsWritten`.
- **Cache keys:**
  - `AnalyzeStruct` caches under `fmt.Sprintf("%v/%v", PkgPath, Name)` (`pkg/apio/apio_analysis.go:157-164`, `Analysis.FullPath`). The model assumes that a package path and a name identify one struct type.
  - In Go they do not always. An anonymous struct type has the key `/`, and two function-local types with the same name in one package share a key. There, the second type gets the first one's analysis.
  - `Analysis.StructCache.AnalyzeStruct` states this as written. A cached key returns the cached analysis, and the analysis is that of the declaration first stored under the key (`sources`). `Analysis.SameKeySharesAnalysis` shows two types under one key getting one analysis.
  - Every other operation (`Output`, `Input`, `OpenApi3`) uses the uncached `Analysis.Analyze`. It is exact only under that assumption.
- **Endpoint and API accessors:** the Endpoint and Api accessors that apioapi3.go calls are record fields of `Endpoint` and `Api`, because those accessors are not part of this model. They include the path pattern, the body infos, id, summary and description.
- **`GetStructInfo` and `StructInfo`:** `apio_output.go` calls these, and they are modelled as `Analysis.Analyze`.
- **`HasContent`:** it is taken to mean "the analysis has at least one field".
- **Error values:**
  - Only the kind of each error is modelled (declaration error, bad request, internal error), and a message where it matters.
  - The value returned beside an error (`return e, err`) is not modelled.
  - Message prefixes added by `fmt.Errorf("...: %w")` are modelled in `SetAll` (`Output.Wrap`) only. Elsewhere, as in `OkCode` and `GetBody`, the failure carries the underlying error.
- **Concurrency:**
  - `sync.Map` is a map field of `StructCache`.
  - Concurrent callers and the race between `Load` and `Store` are not modelled.
- **Self-referential struct types:** `Kind` is an inductive datatype, so a struct type that contains itself cannot be written. The generator's non-termination on such types is therefore out of scope.
- **`uintptr`, floating-point and complex kinds:**
  - They are kinds that `goTypeToOpenapiType` classifies.
  - Their values are not given a numeric model.
- **`AnalyzedField.String`:** it is debug formatting and is not modelled.
- **The type checks:**
  - `validateBodyType` and `validateHeadersType` are not separate members.
  - Their check, "is a struct", is the `Struct?` test of every operation.
- **The getters:**
  - `getHeaders`, `getPath`, `getQuery` and `getBody` are not modelled.
  - They are the `headers`, `path`, `query` and `body` fields of the input record.
- **`GetComponentsOfApi`'s inner loop:** it runs over two body infos (output, then input). The model writes it out as two steps.
- **The `name` tag of a query field:**
  - `ToPayload` sends a query field under its `name` tag, but `calcQueryBindings` and `parse` look it up under its declared name. The model keeps both as written.
  - `InputRoundTrip.ParseOfPayload` therefore assumes query fields without name tags, as `NoNameTags`.
  - `InputRoundTrip.RenamedQueryFieldLost` shows what happens otherwise.
- **Case of sent header names:**
  - `GetHeaders` sends each header under its public name, but `SetHeaders` looks it up by the lower-cased name, against kebab-case lookup keys.
  - `Output.GetHeadersSetHeaders` therefore assumes headers whose lower-cased name is their lookup key, as `PlainHeaders`.
  - `Output.CamelHeaderLost` shows what happens otherwise.
- **`Output.FoldSuccess` and `Output.SetHeadersSpec`:**
  - Which value a field ends up with is stated only for header maps whose names are distinct up to case.
  - When two names differ only in case, the result depends on Go's map order, which the model leaves free.
- **`OpenApi3.TypeComponentsClosed` and `OpenApi3Document.DocumentRefsResolve`:**
  - Closure is proved for types without dangling nesting (`Referable`).
  - A nested struct without fields is referred to by `$ref` but never emitted, in the code as written and in the corrected model alike.

## Findings

| source | as written | input that shows it | evidently intended | confidence | as-written member | corrected member |
|---|---|---|---|---|---|---|
| pkg/apio/apio_output.go:116-120 | a pointer header field is set to the value of the parser, which is a pointer to the field's own pointer type | a headers struct with a field `X *int` and the header `x: 5` | the field is set to the parsed pointer | not executed | Output.PointerHeaderPanics | Output.HeaderValueStep |
| pkg/apio/apio_output.go:57 | SetBody skips decoding only when the body type declares no field at all | a body type `struct{ _ int }`: OkCode says 204 and GetBody sends no bytes, and SetBody then fails to decode the empty body | skip decoding when the body type has no analyzed field, as OkCode and GetBody decide | not executed | Output.BlankBodyRefused | Output.GetBodySetBody |
| pkg/apio/openapi3/apioapi3.go:217-219 | `path[0]` is read without checking that the converted path is non-empty | an endpoint with path pattern `/` or the empty pattern | the root path key `/` | not executed | OpenApi3Document.RootPathPanics | OpenApi3Document.PathKeySpec |
| pkg/apio/openapi3/apioapi3.go:272-285 | GetComponentsOfType does not look through a pointer, while goTypeToOpenapiSchemaRef does | a struct with field `Items []*Inner`: its schema refers to `#/components/schemas/..._Inner`, which is never emitted | emit the schema of the type the reference names | not executed | OpenApi3.SliceOfPointersDangles | OpenApi3.TypeComponentsClosed |
