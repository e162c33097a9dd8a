/**
 * The struct introspector of pkg/apio/apio_analysis.go: per-field metadata
 * (public name, override name, lower-kebab lookup key, pointer-ness, value
 * type, declaration index), the per-struct analysis with its three indices,
 * and the process-wide cache keyed by "pkg/name".
 */
module Analysis {
  import opened Wrappers
  import opened Strings
  import opened Reflect

  datatype AnalyzedField = AnalyzedField(
    name: string,
    lkName: string,
    fieldName: string,
    overrideName: string,
    structField: FieldDecl,
    typ: Kind,
    valueType: Kind,
    index: nat,
    isPointer: bool)
  {
    predicate IsRequired() {
      !isPointer
    }

    predicate IsOptional() {
      !IsRequired()
    }

    predicate IsSlice() {
      typ.Slice?
    }
  }

  datatype AnalyzedStruct = AnalyzedStruct(
    name: string,
    pkg: string,
    fields: seq<AnalyzedField>,
    fieldsByFieldName: map<string, AnalyzedField>,
    fieldsByName: map<string, AnalyzedField>,
    fieldsByLKName: map<string, AnalyzedField>)
  {
    /** HasContent: the struct has at least one analyzed (non-blank) field. */
    predicate HasContent() {
      |fields| > 0
    }
  }

  // ---------------------------------------------------------------------------
  // camelCaseToKebabCase

  /** A dash goes before position `i`: an upper-case letter after a lower-case one. */
  predicate DashBefore(s: string, i: nat)
    requires i < |s|
  {
    IsUpper(s[i]) && i > 0 && IsLower(s[i - 1])
  }

  /** What the loop appends for the character at position `i`. */
  function KebabPiece(s: string, i: nat): string
    requires i < |s|
  {
    if IsUpper(s[i]) then (if DashBefore(s, i) then "-" else "") + [ToLowerChar(s[i])]
    else [s[i]]
  }

  /** camelCaseToKebabCase as a function of the input, one piece per character. */
  function Kebab(s: string): string
    decreases |s|
  {
    if s == [] then "" else Kebab(s[..|s| - 1]) + KebabPiece(s, |s| - 1)
  }

  /** The number of positions of `s` that receive a dash. */
  function DashCount(s: string): nat
    decreases |s|
  {
    if s == [] then 0 else DashCount(s[..|s| - 1]) + (if DashBefore(s, |s| - 1) then 1 else 0)
  }

  function CountChar(s: string, c: char): nat
    decreases |s|
  {
    if s == [] then 0 else CountChar(s[..|s| - 1], c) + (if s[|s| - 1] == c then 1 else 0)
  }

  lemma CountCharAppend(a: string, b: string, c: char)
    ensures CountChar(a + b, c) == CountChar(a, c) + CountChar(b, c)
    decreases |b|
  {
    if b != [] {
      assert (a + b)[..|a + b| - 1] == a + b[..|b| - 1];
      assert (a + b)[|a + b| - 1] == b[|b| - 1];
      CountCharAppend(a, b[..|b| - 1], c);
    } else {
      assert a + b == a;
    }
  }

  /** The loop step: the kebab form of a longer prefix extends that of the shorter one. */
  lemma KebabStep(s: string, i: nat)
    requires i < |s|
    ensures Kebab(s[..i + 1]) == Kebab(s[..i]) + KebabPiece(s, i)
  {
    assert s[..i + 1][..i] == s[..i];
  }

  method CamelCaseToKebabCase(input: string) returns (out: string)
    ensures out == Kebab(input)
  {
    out := "";
    var prev: char := 0 as char;
    for i := 0 to |input|
      invariant out == Kebab(input[..i])
      invariant i > 0 ==> prev == input[i - 1]
    {
      var c := input[i];
      if IsUpper(c) {
        if i > 0 && !IsUpper(prev) && ToUpperChar(prev) != prev {
          out := out + "-";
        }
        out := out + [ToLowerChar(c)];
      } else {
        out := out + [c];
      }
      prev := c;
      KebabStep(input, i);
    }
    assert input[..|input|] == input;
    KebabNoUpper(input);
    ToLowerOfNoUpper(out);
    out := ToLower(out);
  }

  /** The lookup key never contains an upper-case letter. */
  lemma {:induction false} KebabNoUpper(s: string)
    ensures NoUpper(Kebab(s))
    decreases |s|
  {
    if s != [] {
      KebabNoUpper(s[..|s| - 1]);
    }
  }

  /** A string without upper-case letters is its own kebab form. */
  lemma {:induction false} KebabOfNoUpper(s: string)
    requires NoUpper(s)
    ensures Kebab(s) == s
    decreases |s|
  {
    if s != [] {
      KebabOfNoUpper(s[..|s| - 1]);
      assert s == s[..|s| - 1] + [s[|s| - 1]];
    }
  }

  /** Converting twice is the same as converting once. */
  lemma KebabIdempotent(s: string)
    ensures Kebab(Kebab(s)) == Kebab(s)
  {
    KebabNoUpper(s);
    KebabOfNoUpper(Kebab(s));
  }

  /** The piece for one character: the character, lower-cased, after a dash at a boundary. */
  lemma PieceCounts(s: string, i: nat)
    requires i < |s|
    ensures |KebabPiece(s, i)| == 1 + (if DashBefore(s, i) then 1 else 0)
    ensures CountChar(KebabPiece(s, i), '-') == (if s[i] == '-' then 1 else 0) + (if DashBefore(s, i) then 1 else 0)
  {
    var last := [if IsUpper(s[i]) then ToLowerChar(s[i]) else s[i]];
    assert CountChar(last, '-') == (if s[i] == '-' then 1 else 0) by {
      assert last[..0] == [];
    }
    if DashBefore(s, i) {
      assert KebabPiece(s, i) == "-" + last;
      CountCharAppend("-", last, '-');
      assert CountChar("-", '-') == 1 by {
        assert "-"[..0] == [];
      }
    } else {
      assert KebabPiece(s, i) == last;
    }
  }

  /** One dash is added per lower-to-upper boundary. */
  lemma {:induction false} KebabLength(s: string)
    ensures |Kebab(s)| == |s| + DashCount(s)
    decreases |s|
  {
    if s != [] {
      KebabLength(s[..|s| - 1]);
      PieceCounts(s, |s| - 1);
    }
  }

  /** The dashes of the kebab form: those of the input and one per boundary. */
  lemma {:induction false} KebabDashes(s: string)
    ensures CountChar(Kebab(s), '-') == CountChar(s, '-') + DashCount(s)
    decreases |s|
  {
    if s != [] {
      var p := s[..|s| - 1];
      KebabDashes(p);
      PieceCounts(s, |s| - 1);
      CountCharAppend(Kebab(p), KebabPiece(s, |s| - 1), '-');
    }
  }

  /** Without any boundary the kebab form is plain lower-casing. */
  lemma {:induction false} KebabWithoutDashes(s: string)
    requires DashCount(s) == 0
    ensures Kebab(s) == ToLower(s)
    decreases |s|
  {
    if s != [] {
      var p := s[..|s| - 1];
      KebabWithoutDashes(p);
      assert ToLower(s) == ToLower(p) + [ToLowerChar(s[|s| - 1])];
    }
  }

  /** The kebab form is plain lower-casing exactly when no boundary gets a dash. */
  /** A lower-case letter followed by an upper-case one inserts a dash. */
  lemma {:induction false} DashCountPositive(s: string, i: nat)
    requires i < |s| && DashBefore(s, i)
    ensures DashCount(s) >= 1
    decreases |s|
  {
    if i < |s| - 1 {
      var p := s[..|s| - 1];
      assert DashBefore(p, i) by {
        assert p[i] == s[i] && p[i - 1] == s[i - 1];
      }
      DashCountPositive(p, i);
    }
  }

  lemma KebabIsToLowerIff(s: string)
    ensures Kebab(s) == ToLower(s) <==> DashCount(s) == 0
  {
    KebabLength(s);
    if DashCount(s) == 0 {
      KebabWithoutDashes(s);
    }
  }

  // ---------------------------------------------------------------------------
  // AnalyzeField

  /** The public name of a field: its `name` tag when present, else its declared name. */
  function EffectiveName(f: FieldDecl): string {
    match TagLookup(f, "name")
    case Some(tag) => tag
    case None => f.name
  }

  /** AnalyzeField: the metadata of the declared field `index`. */
  function AnalyzeField(d: StructDecl, index: nat): AnalyzedField
    requires index < |d.fields|
  {
    var field := d.fields[index];
    var fieldType := field.kind;
    var isPointer := fieldType.Ptr?;
    var name := EffectiveName(field);
    var overrideName := TagGet(field, "name");
    var valueType := if fieldType.Ptr? then fieldType.elem else fieldType;
    AnalyzedField(name, Kebab(name), field.name, overrideName, field, fieldType, valueType, index, isPointer)
  }

  /**
   * The public name is the name tag when one is given, the declared name
   * otherwise; the lookup key is its kebab form and has no upper-case letter;
   * a field is optional exactly when it is a pointer, and its value type is
   * then the pointee.
   */
  lemma AnalyzeFieldFacts(d: StructDecl, index: nat)
    requires index < |d.fields|
    ensures var r := AnalyzeField(d, index); var f := d.fields[index];
      && r.fieldName == f.name && r.structField == f && r.index == index
      && ("name" in f.tags ==> r.name == f.tags["name"] && r.overrideName == f.tags["name"])
      && ("name" !in f.tags ==> r.name == f.name && r.overrideName == "")
      && r.lkName == Kebab(r.name) && NoUpper(r.lkName)
      && (r.IsOptional() <==> f.kind.Ptr?)
      && r.valueType == (if f.kind.Ptr? then f.kind.elem else f.kind)
  {
    KebabNoUpper(EffectiveName(d.fields[index]));
  }

  // ---------------------------------------------------------------------------
  // AnalyzeStruct

  /** The cache key of a struct type. */
  function FullPath(d: StructDecl): string {
    d.pkg + "/" + d.name
  }

  /** The loop of AnalyzeStruct after its first `n` fields. */
  function AnalyzePrefix(d: StructDecl, n: nat): Result<AnalyzedStruct>
    requires n <= |d.fields|
    decreases n
  {
    if n == 0 then Success(AnalyzedStruct(d.name, d.pkg, [], map[], map[], map[]))
    else
      match AnalyzePrefix(d, n - 1)
      case Failure(e) => Failure(e)
      case Success(acc) => AnalyzeStep(d, n - 1, acc)
  }

  /** One iteration of the AnalyzeStruct loop, for field `i`; a blank field is skipped. */
  function AnalyzeStep(d: StructDecl, i: nat, acc: AnalyzedStruct): Result<AnalyzedStruct>
    requires i < |d.fields|
  {
    if IsBlank(d.fields[i]) then Success(acc)
    else
      var a := AnalyzeField(d, i);
      if a.lkName in acc.fieldsByLKName then Failure(DeclarationError("duplicate lowercase field name " + a.name))
      else Success(acc.(fields := acc.fields + [a],
                        fieldsByFieldName := acc.fieldsByFieldName[a.fieldName := a],
                        fieldsByName := acc.fieldsByName[a.name := a],
                        fieldsByLKName := acc.fieldsByLKName[a.lkName := a]))
  }

  /** AnalyzeStruct without the cache. */
  function Analyze(k: Kind): Result<AnalyzedStruct> {
    if !k.Struct? then Failure(DeclarationError("expected struct"))
    else AnalyzePrefix(k.decl, |k.decl.fields|)
  }

  /** An unrecovered panic that reports `prefix` and the error it wraps. */
  function Panic(prefix: string, e: Error): Error {
    DeclarationError(prefix + ": " + e.message)
  }

  /** AnalyzeStruct in a caller that panics with `prefix` when the analysis fails. */
  function AnalyzeOrPanic(k: Kind, prefix: string): (r: Result<AnalyzedStruct>)
    ensures r.Success? <==> Analyze(k).Success?
    ensures r.Success? ==> r.value == Analyze(k).value
  {
    match Analyze(k)
    case Success(info) => Success(info)
    case Failure(e) => Failure(Panic(prefix, e))
  }

  /** The non-blank fields among the first `n`, analyzed, in declaration order. */
  function BoundFields(d: StructDecl, n: nat): seq<AnalyzedField>
    requires n <= |d.fields|
    decreases n
  {
    if n == 0 then []
    else BoundFields(d, n - 1) + (if IsBlank(d.fields[n - 1]) then [] else [AnalyzeField(d, n - 1)])
  }

  function CountBound(d: StructDecl, n: nat): nat
    requires n <= |d.fields|
    decreases n
  {
    if n == 0 then 0 else CountBound(d, n - 1) + (if IsBlank(d.fields[n - 1]) then 0 else 1)
  }

  /** The three indices of an analysis: by declared name, by public name, by lookup key. */
  datatype IndexKey = FieldNameKey | NameKey | LKNameKey

  function KeyOf(f: AnalyzedField, key: IndexKey): string {
    match key
    case FieldNameKey => f.fieldName
    case NameKey => f.name
    case LKNameKey => f.lkName
  }

  /** An index over `fs`, filled in order, so that each key maps to the last field carrying it. */
  function IndexOf(fs: seq<AnalyzedField>, key: IndexKey): map<string, AnalyzedField>
    decreases |fs|
  {
    if fs == [] then map[] else IndexOf(fs[..|fs| - 1], key)[KeyOf(fs[|fs| - 1], key) := fs[|fs| - 1]]
  }

  /** What the analysis of the first `n` fields holds when it succeeds. */
  function Indexed(d: StructDecl, n: nat): AnalyzedStruct
    requires n <= |d.fields|
  {
    var fs := BoundFields(d, n);
    AnalyzedStruct(d.name, d.pkg, fs, IndexOf(fs, FieldNameKey), IndexOf(fs, NameKey), IndexOf(fs, LKNameKey))
  }

  /** No two analyzed fields share a lookup key. */
  predicate DistinctLK(fs: seq<AnalyzedField>) {
    forall i, j :: 0 <= i < j < |fs| ==> fs[i].lkName != fs[j].lkName
  }

  /** An index holds exactly the keys of its fields. */
  lemma {:induction false} IndexOfKeys(fs: seq<AnalyzedField>, key: IndexKey)
    ensures forall k :: k in IndexOf(fs, key) <==> exists j :: 0 <= j < |fs| && KeyOf(fs[j], key) == k
    decreases |fs|
  {
    if fs != [] {
      var p := fs[..|fs| - 1];
      IndexOfKeys(p, key);
      assert forall j :: 0 <= j < |p| ==> p[j] == fs[j];
    }
  }

  /** Each key of an index maps to a field of the sequence that carries that key. */
  lemma {:induction false} IndexOfValues(fs: seq<AnalyzedField>, key: IndexKey)
    ensures forall k :: k in IndexOf(fs, key) ==> IndexOf(fs, key)[k] in fs && KeyOf(IndexOf(fs, key)[k], key) == k
    decreases |fs|
  {
    if fs != [] {
      var p := fs[..|fs| - 1];
      IndexOfValues(p, key);
      assert fs == p + [fs[|fs| - 1]];
    }
  }

  /** A field that no later field shadows is the one the index finds under its key. */
  lemma {:induction false} IndexOfLastWins(fs: seq<AnalyzedField>, key: IndexKey, j: nat)
    requires j < |fs|
    requires forall j2 :: j < j2 < |fs| ==> KeyOf(fs[j2], key) != KeyOf(fs[j], key)
    ensures KeyOf(fs[j], key) in IndexOf(fs, key) && IndexOf(fs, key)[KeyOf(fs[j], key)] == fs[j]
    decreases |fs|
  {
    if j < |fs| - 1 {
      var p := fs[..|fs| - 1];
      assert KeyOf(fs[|fs| - 1], key) != KeyOf(fs[j], key);
      assert forall j2 :: j < j2 < |p| ==> p[j2] == fs[j2];
      IndexOfLastWins(p, key, j);
    }
  }

  /** With distinct lookup keys every analyzed field is found under its own key. */
  lemma LookupDistinct(fs: seq<AnalyzedField>, f: AnalyzedField)
    requires DistinctLK(fs)
    requires f in fs
    ensures f.lkName in IndexOf(fs, LKNameKey) && IndexOf(fs, LKNameKey)[f.lkName] == f
  {
    var j :| 0 <= j < |fs| && fs[j] == f;
    IndexOfLastWins(fs, LKNameKey, j);
  }

  /** BoundFields holds only non-blank fields, each analyzed at its own index. */
  lemma {:induction false} BoundFieldsSound(d: StructDecl, n: nat)
    requires n <= |d.fields|
    ensures forall f :: f in BoundFields(d, n) ==>
      f.index < n && !IsBlank(d.fields[f.index]) && f == AnalyzeField(d, f.index)
    decreases n
  {
    if n > 0 {
      BoundFieldsSound(d, n - 1);
      var p := BoundFields(d, n - 1);
      var tail: seq<AnalyzedField> := if IsBlank(d.fields[n - 1]) then [] else [AnalyzeField(d, n - 1)];
      assert BoundFields(d, n) == p + tail;
      forall f: AnalyzedField | f in p + tail
        ensures f.index < n && !IsBlank(d.fields[f.index]) && f == AnalyzeField(d, f.index)
      {
        if f !in p {
          assert f == AnalyzeField(d, n - 1) && !IsBlank(d.fields[n - 1]);
          assert f.index == n - 1;
        }
      }
    }
  }

  /** BoundFields holds every non-blank field. */
  lemma {:induction false} BoundFieldsComplete(d: StructDecl, n: nat)
    requires n <= |d.fields|
    ensures forall i :: 0 <= i < n && !IsBlank(d.fields[i]) ==> AnalyzeField(d, i) in BoundFields(d, n)
    decreases n
  {
    if n > 0 {
      BoundFieldsComplete(d, n - 1);
      var p := BoundFields(d, n - 1);
      if IsBlank(d.fields[n - 1]) {
        assert BoundFields(d, n) == p;
      } else {
        assert BoundFields(d, n) == p + [AnalyzeField(d, n - 1)];
      }
    }
  }

  lemma {:induction false} BoundFieldsBelow(d: StructDecl, n: nat)
    requires n <= |d.fields|
    ensures forall j :: 0 <= j < |BoundFields(d, n)| ==> BoundFields(d, n)[j].index < n
    decreases n
  {
    if n > 0 {
      BoundFieldsBelow(d, n - 1);
      var p := BoundFields(d, n - 1);
      assert forall j :: 0 <= j < |p| ==> BoundFields(d, n)[j] == p[j];
    }
  }

  /** BoundFields lists one entry per non-blank field, in declaration order. */
  lemma {:induction false} BoundFieldsOrdered(d: StructDecl, n: nat)
    requires n <= |d.fields|
    ensures |BoundFields(d, n)| == CountBound(d, n)
    ensures forall j1, j2 :: 0 <= j1 < j2 < |BoundFields(d, n)| ==>
      BoundFields(d, n)[j1].index < BoundFields(d, n)[j2].index
    decreases n
  {
    if n > 0 {
      BoundFieldsOrdered(d, n - 1);
      BoundFieldsBelow(d, n - 1);
      var p := BoundFields(d, n - 1);
      var cur := BoundFields(d, n);
      assert forall j :: 0 <= j < |p| ==> cur[j] == p[j];
    }
  }

  /** One non-blank field: the analysis grows by that field in all three indices. */
  lemma IndexedStep(d: StructDecl, n: nat)
    requires 0 < n <= |d.fields|
    requires !IsBlank(d.fields[n - 1])
    ensures var a := AnalyzeField(d, n - 1); var acc := Indexed(d, n - 1);
      Indexed(d, n) == acc.(fields := acc.fields + [a],
                            fieldsByFieldName := acc.fieldsByFieldName[a.fieldName := a],
                            fieldsByName := acc.fieldsByName[a.name := a],
                            fieldsByLKName := acc.fieldsByLKName[a.lkName := a])
  {
    var cur := BoundFields(d, n);
    assert cur[..|cur| - 1] == BoundFields(d, n - 1);
  }

  /** Appending a field keeps the keys distinct exactly when its key is new. */
  lemma DistinctAppend(p: seq<AnalyzedField>, a: AnalyzedField)
    ensures DistinctLK(p + [a]) <==> DistinctLK(p) && a.lkName !in IndexOf(p, LKNameKey)
  {
    var cur := p + [a];
    IndexOfKeys(p, LKNameKey);
    assert forall j :: 0 <= j < |p| ==> cur[j] == p[j];
    if a.lkName in IndexOf(p, LKNameKey) {
      var j :| 0 <= j < |p| && KeyOf(p[j], LKNameKey) == a.lkName;
      assert cur[j].lkName == cur[|cur| - 1].lkName;
    } else {
      forall j | 0 <= j < |p| ensures p[j].lkName != a.lkName {
        assert KeyOf(p[j], LKNameKey) == p[j].lkName;
      }
    }
  }

  /**
   * The loop succeeds exactly when the lookup keys of the non-blank fields are
   * distinct, and then holds those fields and their three indices.
   */
  lemma {:induction false} AnalyzePrefixSpec(d: StructDecl, n: nat)
    requires n <= |d.fields|
    ensures AnalyzePrefix(d, n).Success? <==> DistinctLK(BoundFields(d, n))
    ensures AnalyzePrefix(d, n).Success? ==> AnalyzePrefix(d, n).value == Indexed(d, n)
    decreases n
  {
    if n > 0 {
      AnalyzePrefixSpec(d, n - 1);
      var p := BoundFields(d, n - 1);
      if IsBlank(d.fields[n - 1]) {
        assert BoundFields(d, n) == p;
      } else {
        var a := AnalyzeField(d, n - 1);
        assert BoundFields(d, n) == p + [a];
        DistinctAppend(p, a);
        if AnalyzePrefix(d, n - 1).Success? {
          IndexedStep(d, n);
        }
      }
    }
  }

  /** An analysis Describes a declaration: it is Indexed over all fields, with distinct keys. */
  ghost predicate Describes(a: AnalyzedStruct, d: StructDecl) {
    a == Indexed(d, |d.fields|) && DistinctLK(a.fields)
  }

  /** A non-struct is refused; a struct is analyzed exactly when its lookup keys are distinct. */
  lemma AnalyzeDescribes(k: Kind)
    ensures !k.Struct? ==> Analyze(k).Failure? && Analyze(k).error.DeclarationError?
    ensures k.Struct? ==> (Analyze(k).Success? <==> DistinctLK(BoundFields(k.decl, |k.decl.fields|)))
    ensures Analyze(k).Success? ==> k.Struct? && Describes(Analyze(k).value, k.decl)
  {
    if k.Struct? {
      AnalyzePrefixSpec(k.decl, |k.decl.fields|);
    }
  }

  /** Consequences of Describes for one analyzed field. */
  lemma DescribedField(a: AnalyzedStruct, d: StructDecl, f: AnalyzedField)
    requires Describes(a, d)
    requires f in a.fields
    ensures f.index < |d.fields| && !IsBlank(d.fields[f.index]) && f == AnalyzeField(d, f.index)
    ensures f.lkName in a.fieldsByLKName && a.fieldsByLKName[f.lkName] == f
  {
    BoundFieldsSound(d, |d.fields|);
    LookupDistinct(a.fields, f);
  }

  /** Once the loop has failed it stays failed. */
  lemma {:induction false} AnalyzeFailureSticks(d: StructDecl, n: nat, m: nat)
    requires n <= m <= |d.fields|
    requires AnalyzePrefix(d, n).Failure?
    ensures AnalyzePrefix(d, m) == AnalyzePrefix(d, n)
    decreases m - n
  {
    if n < m {
      AnalyzeFailureSticks(d, n, m - 1);
    }
  }

  /** The process-wide analysis cache, a map from "pkg/name" to the analysis stored there. */
  class StructCache {
    var entries: map<string, AnalyzedStruct>
    /** The declaration whose analysis was stored under each key. */
    ghost var sources: map<string, StructDecl>

    ghost predicate Valid()
      reads this
    {
      && entries.Keys == sources.Keys
      && forall key :: key in entries ==>
           FullPath(sources[key]) == key && Analyze(Struct(sources[key])) == Success(entries[key])
    }

    constructor ()
      ensures Valid() && entries == map[]
    {
      entries := map[];
      sources := map[];
    }

    /**
     * AnalyzeStruct: a non-struct is refused; a key already present returns the
     * stored analysis unchanged; otherwise the struct is analyzed and, only on
     * success, stored under its key.
     */
    method AnalyzeStruct(k: Kind) returns (r: Result<AnalyzedStruct>)
      requires Valid()
      modifies this
      ensures Valid()
      ensures !k.Struct? ==> r.Failure? && r.error.DeclarationError? && entries == old(entries)
      ensures k.Struct? && FullPath(k.decl) in old(entries) ==>
        r == Success(old(entries)[FullPath(k.decl)]) && entries == old(entries)
      ensures k.Struct? && FullPath(k.decl) !in old(entries) ==>
        && r == Analyze(k)
        && entries == (if r.Success? then old(entries)[FullPath(k.decl) := r.value] else old(entries))
      ensures k.Struct? && r.Success? ==>
        FullPath(k.decl) in entries && r == Analyze(Struct(sources[FullPath(k.decl)]))
    {
      if !k.Struct? {
        return Failure(DeclarationError("expected struct"));
      }
      var d := k.decl;
      var fullPath := FullPath(d);
      if fullPath in entries {
        return Success(entries[fullPath]);
      }
      var fields: seq<AnalyzedField> := [];
      var fieldsByFieldName: map<string, AnalyzedField> := map[];
      var fieldsByName: map<string, AnalyzedField> := map[];
      var fieldsByLKName: map<string, AnalyzedField> := map[];
      for i := 0 to |d.fields|
        invariant AnalyzePrefix(d, i) == Success(AnalyzedStruct(d.name, d.pkg, fields, fieldsByFieldName, fieldsByName, fieldsByLKName))
      {
        var field := d.fields[i];
        if field.name == Blank {
          continue;
        }
        var analyzed := AnalyzeField(d, i);
        fields := fields + [analyzed];
        fieldsByFieldName := fieldsByFieldName[analyzed.fieldName := analyzed];
        fieldsByName := fieldsByName[analyzed.name := analyzed];
        if analyzed.lkName in fieldsByLKName {
          AnalyzeFailureSticks(d, i + 1, |d.fields|);
          return Failure(DeclarationError("duplicate lowercase field name " + analyzed.name));
        }
        fieldsByLKName := fieldsByLKName[analyzed.lkName := analyzed];
      }
      var analyzed := AnalyzedStruct(d.name, d.pkg, fields, fieldsByFieldName, fieldsByName, fieldsByLKName);
      entries := entries[fullPath := analyzed];
      sources := sources[fullPath := d];
      return Success(analyzed);
    }
  }

  /** Two calls in a row: the second returns what the first stored. */
  method AnalyzeTwice(cache: StructCache, k: Kind) returns (first: Result<AnalyzedStruct>, second: Result<AnalyzedStruct>)
    requires cache.Valid()
    modifies cache
    ensures cache.Valid()
    ensures first.Success? ==> second == first
    ensures first.Failure? && (k.Struct? ==> FullPath(k.decl) !in old(cache.entries)) ==> second.Failure?
  {
    first := cache.AnalyzeStruct(k);
    second := cache.AnalyzeStruct(k);
  }

  /**
   * Two struct types under one key (two anonymous structs both keyed "/", or
   * two function-local types of one name): the second gets the first's analysis.
   */
  method SameKeySharesAnalysis(cache: StructCache, k1: Kind, k2: Kind) returns (r1: Result<AnalyzedStruct>, r2: Result<AnalyzedStruct>)
    requires cache.Valid()
    requires k1.Struct? && k2.Struct? && FullPath(k1.decl) == FullPath(k2.decl)
    modifies cache
    ensures cache.Valid()
    ensures r1.Success? ==> r2 == r1
  {
    r1 := cache.AnalyzeStruct(k1);
    r2 := cache.AnalyzeStruct(k2);
  }

  // ---------------------------------------------------------------------------
  // Assign and GetPtr, on a struct value given as its items

  /**
   * Assign: store the value `valuePtr` points to (None is a nil pointer) in the
   * field. The parent is always a pointer to a struct here, so the two kind
   * checks of the Go code cannot fail.
   */
  function Assign(parent: seq<Value>, f: AnalyzedField, valuePtr: Option<Value>): (r: Result<seq<Value>>)
    requires f.index < |parent|
    ensures f.IsRequired() && valuePtr.None? ==> r.Failure?
    ensures valuePtr.None? ==> r.Failure? && (if f.isPointer then r.error.InternalError? else r.error.BadRequest?)
    ensures valuePtr.Some? ==> r == Success(parent[f.index := valuePtr.value])
    ensures r.Success? ==> |r.value| == |parent| && forall j :: 0 <= j < |parent| && j != f.index ==> r.value[j] == parent[j]
  {
    if f.isPointer then
      match valuePtr
      case Some(v) => Success(parent[f.index := v])
      // reflect.ValueOf(nil) is the zero Value, which Value.Set refuses
      case None => Failure(InternalError("reflect: call of reflect.Value.Set on zero Value"))
    else if valuePtr.None? then Failure(BadRequest("expected non-nil value for required field " + f.name))
    else Success(parent[f.index := valuePtr.value])
  }

  /** GetPtr: None for a nil pointer field, else (a pointer to) the field's value. */
  function GetPtr(parent: seq<Value>, f: AnalyzedField): (r: Option<Value>)
    requires f.index < |parent|
  {
    if f.isPointer then
      if parent[f.index] == Nil then None else Some(parent[f.index])
    else Some(parent[f.index])
  }

  /** GetPtr reads back what Assign stored; a nil pointer reads back as None. */
  lemma AssignThenGetPtr(parent: seq<Value>, f: AnalyzedField, v: Value)
    requires f.index < |parent|
    ensures Assign(parent, f, Some(v)).Success?
    ensures GetPtr(Assign(parent, f, Some(v)).value, f) == if f.isPointer && v == Nil then None else Some(v)
  {
  }

  /** A required field never reads as nil. */
  lemma RequiredNeverNil(parent: seq<Value>, f: AnalyzedField)
    requires f.index < |parent|
    requires f.IsRequired()
    ensures GetPtr(parent, f) == Some(parent[f.index])
  {
  }
}
