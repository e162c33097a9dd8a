/**
 * Concrete instances of the model, taken from the repository's own test
 * suites: the lookup keys of pkg/apio/apio_analysis_test.go, the pattern
 * conversion, the schema name and the server entry of the expected document in
 * pkg/apio/openapi3/apioapi3_slice_test.go. The general lemmas at the top take
 * the concrete strings apart so that each instance is a few rewriting steps.
 */
module Examples {
  import opened Wrappers
  import opened Strings
  import opened Reflect
  import opened Analysis
  import opened OpenApi3
  import opened OpenApi3Document
  import Input

  // ---------------------------------------------------------------------------
  // Lookup keys

  /** The lookup key of a concatenation: the keys of the halves, with a dash where a lower-case letter meets an upper-case one. */
  lemma {:induction false} KebabConcat(a: string, b: string)
    requires b != []
    ensures Kebab(a + b) == Kebab(a) + (if a != [] && IsLower(a[|a| - 1]) && IsUpper(b[0]) then "-" else "") + Kebab(b)
    decreases |b|
  {
    var s := a + b;
    var b' := b[..|b| - 1];
    var dash := if a != [] && IsLower(a[|a| - 1]) && IsUpper(b[0]) then "-" else "";
    assert s[..|s| - 1] == a + b';
    assert Kebab(s) == Kebab(a + b') + KebabPiece(s, |s| - 1);
    assert Kebab(b) == Kebab(b') + KebabPiece(b, |b| - 1);
    if |b| == 1 {
      assert b' == [] && a + b' == a;
      PieceAtJoin(a, b);
      assert Kebab(b) == KebabPiece(b, 0);
      SeqAssoc(Kebab(a), dash, KebabPiece(b, 0));
    } else {
      KebabConcat(a, b');
      assert b'[0] == b[0];
      PieceAfterJoin(a, b);
      var p := KebabPiece(b, |b| - 1);
      SeqAssoc(Kebab(a) + dash, Kebab(b'), p);
    }
  }

  /** The piece of the first character of `b`, after `a`: a dash when `a` ends in a lower-case letter and `b` starts upper case. */
  lemma PieceAtJoin(a: string, b: string)
    requires b != []
    ensures KebabPiece(a + b, |a|) == (if a != [] && IsLower(a[|a| - 1]) && IsUpper(b[0]) then "-" else "") + KebabPiece(b, 0)
  {
    assert (a + b)[|a|] == b[0];
    assert a != [] ==> (a + b)[|a| - 1] == a[|a| - 1];
  }

  /** The piece of a later character of `b` does not depend on `a`. */
  lemma PieceAfterJoin(a: string, b: string)
    requires |b| >= 2
    ensures KebabPiece(a + b, |a| + |b| - 1) == KebabPiece(b, |b| - 1)
  {
    var s := a + b;
    assert s[|s| - 1] == b[|b| - 1] && s[|s| - 2] == b[|b| - 2];
  }

  lemma SeqAssoc(x: string, y: string, z: string)
    ensures (x + y) + z == x + (y + z)
  {
  }

  /** A capitalised word: only its first letter is upper case, and it is lowered. */
  lemma KebabCapital(c: char, rest: string)
    requires NoUpper(rest) && rest != []
    ensures Kebab([c] + rest) == [ToLowerChar(c)] + rest
  {
    KebabConcat([c], rest);
    assert [c][..0] == [];
    KebabOfNoUpper(rest);
  }

  /** Two capitalised words: each is lowered, with a dash between them when the first ends in a lower-case letter. */
  lemma KebabOfTwoWords(c1: char, r1: string, c2: char, r2: string)
    requires NoUpper(r1) && r1 != [] && NoUpper(r2) && r2 != []
    ensures Kebab([c1] + r1 + ([c2] + r2))
      == [ToLowerChar(c1)] + r1 + (if IsLower(r1[|r1| - 1]) && IsUpper(c2) then "-" else "") + ([ToLowerChar(c2)] + r2)
  {
    KebabCapital(c1, r1);
    KebabCapital(c2, r2);
    assert ([c1] + r1)[|r1|] == r1[|r1| - 1];
    KebabConcat([c1] + r1, [c2] + r2);
  }

  /** A camel-case field name gets a dash at its one lower-to-upper boundary. */
  lemma KebabOfRequiredField()
    ensures Kebab("RequiredField") == "required-field"
  {
    KebabOfTwoWords('R', "equired", 'F', "ield");
    assert "RequiredField" == ['R'] + "equired" + (['F'] + "ield");
    assert ToLowerChar('R') == 'r' && ToLowerChar('F') == 'f';
    assert "required-field" == ['r'] + "equired" + "-" + (['f'] + "ield");
  }

  /** An override name in snake case is kept as it is. */
  lemma KebabOfOptionalField()
    ensures Kebab("optional_field") == "optional_field"
  {
    KebabOfNoUpper("optional_field");
  }

  /** Without a lower-case letter directly before an upper-case one, no dash is inserted. */
  lemma {:induction false} NoBoundaryNoDash(s: string)
    requires forall i :: 0 < i < |s| && IsUpper(s[i]) ==> !IsLower(s[i - 1])
    ensures DashCount(s) == 0
    decreases |s|
  {
    if s != [] {
      var p := s[..|s| - 1];
      assert forall i :: 0 <= i < |p| ==> p[i] == s[i];
      NoBoundaryNoDash(p);
    }
  }

  /** A dash already in the name is not doubled, so "Content-Type" becomes "content-type". */
  lemma KebabOfContentType()
    ensures Kebab("Content-Type") == "content-type"
  {
    var s := "Content-Type";
    assert forall i :: 0 < i < |s| && IsUpper(s[i]) ==> i == 8;
    NoBoundaryNoDash(s);
    KebabWithoutDashes(s);
    assert ToLower(s) == "content-type";
  }

  // ---------------------------------------------------------------------------
  // Splitting

  /** A string without the separator is one piece. */
  lemma {:induction false} SplitNone(s: string, sep: char)
    requires sep !in s
    ensures Split(s, sep) == [s]
    decreases |s|
  {
    if s != [] {
      SplitNone(s[1..], sep);
      assert [s[0]] + s[1..] == s;
    }
  }

  /** Splitting at a separator splits the two sides independently. */
  lemma {:induction false} SplitAppend(a: string, b: string, sep: char)
    ensures Split(a + [sep] + b, sep) == Split(a, sep) + Split(b, sep)
    decreases |a|
  {
    var s := a + [sep] + b;
    if a == [] {
      assert s[1..] == b;
    } else {
      assert s[1..] == a[1..] + [sep] + b;
      SplitAppend(a[1..], b, sep);
    }
  }

  // ---------------------------------------------------------------------------
  // Patterns, schema names, servers

  lemma SplitOfUserParam()
    ensures Split("users/:User", '/') == ["users", ":User"]
  {
    assert "users/:User" == "users" + ['/'] + ":User";
    SplitAppend("users", ":User", '/');
    SplitNone("users", '/');
    SplitNone(":User", '/');
  }

  lemma SplitOfUserPath()
    ensures Split("/users/:User", '/') == ["", "users", ":User"]
  {
    assert "/users/:User" == "" + ['/'] + "users/:User";
    SplitAppend("", "users/:User", '/');
    SplitNone("", '/');
    SplitOfUserParam();
  }

  lemma SegmentsOfUserPath()
    ensures SegmentOf("") == "" && SegmentOf("users") == "/users" && SegmentOf(":User") == "/{User}"
  {
    TrimSpaceOfTrimmed("");
    TrimSpaceOfTrimmed("users");
    TrimSpaceOfTrimmed(":User");
    assert ":User"[1..] == "User";
  }

  lemma PrefixOfUserPath()
    ensures PatternPrefix(["", "users", ":User"], 3) == "/users/{User}"
  {
    SegmentsOfUserPath();
    assert "" + "/users" == "/users";
    assert "/users" + "/{User}" == "/users/{User}";
  }

  /** A colon parameter becomes a braced OpenAPI parameter; literal segments stay. */
  lemma PatternOfUserPath()
    ensures OpenApiPattern("/users/:User") == "/users/{User}"
  {
    SplitOfUserPath();
    PrefixOfUserPath();
  }

  /** The path facet of the test endpoint: a literal "/users" placeholder, then the field User. */
  function TestInputPath(pkg: string): StructDecl {
    StructDecl(pkg, "InputPath", [FieldDecl(Blank, map["path" := "/users"], Interface), FieldDecl("User", map[], Int)])
  }

  lemma UsersLiteral()
    ensures TrimPrefix("/users", "/") == "users"
  {
    assert HasPrefix("/users", "/");
  }

  /** Its route pattern: the literal segment, then a parameter named after the field. */
  lemma UserPathPlan(pkg: string)
    ensures Input.PathPlan(Struct(TestInputPath(pkg))).Success?
    ensures Input.PathPlan(Struct(TestInputPath(pkg))).value.flatPath == "/users/:User"
    ensures "User" in Input.PathPlan(Struct(TestInputPath(pkg))).value.bindings
  {
    var d := TestInputPath(pkg);
    UsersLiteral();
    assert Input.SegmentOf(d.fields[0]) == Input.Literal("users");
    assert Input.PatternText(Input.Literal("users")) == "/users";
    assert "" + "/users" == "/users";
    assert Input.PathPlanPrefix(d, 0) == Success(Input.PathBindings("", map[]));
    assert Input.PathPlanPrefix(d, 1) == Success(Input.PathBindings("/users", map[]));
    assert "/users" + "/:User" == "/users/:User";
  }

  /** The OpenAPI path of the test endpoint. */
  lemma UserPathKey(pkg: string)
    ensures var plan := Input.PathPlan(Struct(TestInputPath(pkg)));
      plan.Success? && PathKey(plan.value.flatPath) == "/users/{User}"
  {
    UserPathPlan(pkg);
    PatternOfUserPath();
  }

  /** The last segment of a package path is what follows its last slash. */
  lemma LastSegmentAfterSlash(dir: string, last: string)
    requires '/' !in last
    ensures LastSegment(dir + "/" + last) == last
  {
    SplitAppend(dir, last, '/');
    SplitNone(last, '/');
  }

  lemma SanitizedUser()
    ensures Sanitize("openapi3/User") == "openapi3_User"
  {
    var s := "openapi3/User";
    var r := Sanitize(s);
    forall i | 0 <= i < 13 ensures r[i] == "openapi3_User"[i] {
      if i != 8 {
        assert SchemaChar(s[i]);
      }
    }
  }

  /**
   * The schema name of the test's User struct, declared in a package whose
   * path ends in "/openapi3" (github.com/GiGurra/apio/pkg/apio/openapi3):
   * last package segment, underscore, type name.
   */
  lemma SchemaNameOfUser(dir: string)
    ensures SchemaNameOf(AnalyzedStruct("User", dir + "/openapi3", [], map[], map[], map[])) == "openapi3_User"
  {
    assert dir + "/openapi3" == dir + "/" + "openapi3";
    LastSegmentAfterSlash(dir, "openapi3");
    assert "openapi3" + "/" + "User" == "openapi3/User";
    SanitizedUser();
  }

  lemma TestServerUrl()
    ensures "https" + "://" + "api.example.com" + ":" + "443" + "/api/v1" == "https://api.example.com:443/api/v1"
  {
    assert "https" + "://" == "https://";
    assert "https://" + "api.example.com" == "https://api.example.com";
    assert "https://api.example.com" + ":" == "https://api.example.com:";
    assert "https://api.example.com:" + "443" == "https://api.example.com:443";
  }

  lemma TestServerDescription()
    ensures "My test server" + " - " + "My test server description" == "My test server - My test server description"
  {
    assert "My test server" + " - " == "My test server - ";
  }

  /** The server entry of the test API. */
  lemma ServerOfTestServer()
    ensures ServerOf(ServerDecl("My test server", "My test server description", "https", "api.example.com", 443, "/api/v1"))
            == Server("https://api.example.com:443/api/v1", "My test server - My test server description")
  {
    ItoaOf443();
    TestServerUrl();
    TestServerDescription();
  }

  lemma ItoaOf443()
    ensures Itoa(443) == "443"
  {
    assert NatToString(4) == "4";
    assert NatToString(44) == "44";
  }
}
