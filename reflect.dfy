/**
 * Go's run-time type information, written out as data. A struct type is a
 * `StructDecl`: its package path, its name and its fields in declaration
 * order, each with its declared name (`_` for a blank placeholder), its
 * struct tags and its kind. Values of those types are `Value`s; the JSON
 * and `fmt` conversions apio delegates to the standard library are
 * the opaque functions of a `Codec`.
 */
module Reflect {
  import opened Wrappers

  /** reflect.Kind, with the element types that Elem() returns. */
  datatype Kind =
    | Bool
    | Int | Int8 | Int16 | Int32 | Int64
    | Uint | Uint8 | Uint16 | Uint32 | Uint64 | Uintptr
    | Float32 | Float64 | Complex64 | Complex128
    | String
    | Interface
    | Func
    | UnsafePointer
    | Struct(decl: StructDecl)
    | Ptr(elem: Kind)
    | Slice(elem: Kind)
    | Array(len: nat, elem: Kind)
    | Chan(elem: Kind)
    | Map(key: Kind, elem: Kind)

  datatype StructDecl = StructDecl(pkg: string, name: string, fields: seq<FieldDecl>)

  /** reflect.StructField: declared name, tags (`name:"..."`, `path:"..."`) and type. */
  datatype FieldDecl = FieldDecl(name: string, tags: map<string, string>, kind: Kind)

  /** The declared name of a blank placeholder field. */
  const Blank: string := "_"

  predicate IsBlank(f: FieldDecl) {
    f.name == Blank
  }

  /** StructTag.Lookup */
  function TagLookup(f: FieldDecl, key: string): Option<string> {
    if key in f.tags then Some(f.tags[key]) else None
  }

  /** StructTag.Get: the empty string when the tag is absent. */
  function TagGet(f: FieldDecl, key: string): string {
    if key in f.tags then f.tags[key] else ""
  }

  /** reflect.Type.NumField for a struct kind. */
  function NumField(k: Kind): nat
    requires k.Struct?
  {
    |k.decl.fields|
  }

  predicate IsIntegerKind(k: Kind) {
    k.Int? || k.Int8? || k.Int16? || k.Int32? || k.Int64?
    || k.Uint? || k.Uint8? || k.Uint16? || k.Uint32? || k.Uint64?
  }

  predicate IsFloatKind(k: Kind) {
    k.Float32? || k.Float64?
  }

  /**
   * A value held by a field. A pointer-typed field holds `Nil` or the value it
   * points to; a struct holds one item per declared field, blank ones included.
   */
  datatype Value =
    | Nil
    | BoolVal(b: bool)
    | IntVal(i: int)
    | FloatVal(r: real)
    | StrVal(s: string)
    | RecordVal(items: seq<Value>)
    | ListVal(elems: seq<Value>)

  /** The zero value of a kind: what `var x T` holds. */
  function ZeroOf(k: Kind): Value
    decreases k
  {
    match k
    case Bool => BoolVal(false)
    case Int | Int8 | Int16 | Int32 | Int64 | Uint | Uint8 | Uint16 | Uint32 | Uint64 | Uintptr => IntVal(0)
    case Float32 | Float64 | Complex64 | Complex128 => FloatVal(0.0)
    case String => StrVal("")
    case Struct(d) => RecordVal(seq(|d.fields|, i requires 0 <= i < |d.fields| => ZeroOf(d.fields[i].kind)))
    case Array(n, e) => ListVal(seq(n, _ => ZeroOf(e)))
    case Interface | Func | UnsafePointer | Ptr(_) | Slice(_) | Chan(_) | Map(_, _) => Nil
  }

  /**
   * `v` is a value of type `k`. Blank fields cannot be written in Go, so they
   * hold their zero value.
   */
  predicate HasType(v: Value, k: Kind)
    decreases k
  {
    match k
    case Bool => v.BoolVal?
    case Int | Int8 | Int16 | Int32 | Int64 | Uint | Uint8 | Uint16 | Uint32 | Uint64 | Uintptr => v.IntVal?
    case Float32 | Float64 | Complex64 | Complex128 => v.FloatVal?
    case String => v.StrVal?
    case Struct(d) =>
      && v.RecordVal?
      && |v.items| == |d.fields|
      && (forall i :: 0 <= i < |d.fields| ==> HasType(v.items[i], d.fields[i].kind))
      && (forall i :: 0 <= i < |d.fields| && IsBlank(d.fields[i]) ==> v.items[i] == ZeroOf(d.fields[i].kind))
    case Ptr(e) => v == Nil || HasType(v, e)
    case Slice(e) => v == Nil || (v.ListVal? && forall j :: 0 <= j < |v.elems| ==> HasType(v.elems[j], e))
    case Array(n, e) => v.ListVal? && |v.elems| == n && forall j :: 0 <= j < |v.elems| ==> HasType(v.elems[j], e)
    case Interface | Func | UnsafePointer | Chan(_) | Map(_, _) => true
  }

  lemma {:induction false} ZeroOfHasType(k: Kind)
    ensures HasType(ZeroOf(k), k)
    decreases k
  {
    match k {
      case Struct(d) =>
        forall i | 0 <= i < |d.fields| ensures HasType(ZeroOf(k).items[i], d.fields[i].kind) {
          ZeroOfHasType(d.fields[i].kind);
        }
      case Array(n, e) =>
        ZeroOfHasType(e);
      case _ =>
    }
  }

  /**
   * The shape a struct-typed facet value must have for the reflective
   * accessors to apply: one item per declared field.
   */
  predicate Shaped(v: Value, k: Kind) {
    k.Struct? ==> v.RecordVal? && |v.items| == |k.decl.fields|
  }

  lemma HasTypeShaped(v: Value, k: Kind)
    requires HasType(v, k)
    ensures Shaped(v, k)
  {
  }

  newtype byte = x: int | 0 <= x < 256

  type Bytes = seq<byte>

  /**
   * The library conversions, left uninterpreted.
   *   marshal:       json.Marshal of a field value, as text
   *   unmarshal:     getStringParsePtrFn: parse a wire string into the given type
   *   marshalBody:   json.Marshal of a body value
   *   unmarshalBody: json.Unmarshal of body bytes into the given type
   *   format:        fmt.Sprintf("%v", value)
   *   queryEscape:   url.QueryEscape
   */
  datatype Codec = Codec(
    marshal: Value -> Option<string>,
    unmarshal: (Kind, string) -> Option<Value>,
    marshalBody: Value -> Option<Bytes>,
    unmarshalBody: (Kind, Bytes) -> Option<Value>,
    format: Value -> string,
    queryEscape: string -> string)
}
