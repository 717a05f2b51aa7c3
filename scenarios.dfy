/**
 * Worked questions: what the classifier predicates and the router decide for
 * particular texts.
 */
module Scenarios {
  import opened Wrappers
  import opened Text
  import opened Classifier
  import opened Results
  import opened Router

  // ---- the precise-query pattern needs whole words ----

  /** In a string made only of word characters, the only boundaries are its two ends. */
  lemma WholeWordBoundaries(s: string)
    requires |s| > 0 && forall m :: 0 <= m < |s| ==> IsWordChar(s[m])
    ensures forall i :: 0 <= i <= |s| && AtBoundary(s, i) ==> i == 0 || i == |s|
  {
    forall i | 0 < i < |s| ensures !AtBoundary(s, i) {
      assert IsWordChar(s[i - 1]) && IsWordChar(s[i]);
    }
  }

  /** A single word that is not itself a keyword holds no match, even if a keyword is a piece of it. */
  lemma NoKeywordInsideWord(s: string)
    requires |s| > 0 && forall m :: 0 <= m < |s| ==> IsWordChar(s[m])
    requires !IsPreciseKeyword(s)
    ensures !HasPreciseMatch(s)
  {
    WholeWordBoundaries(s);
    assert !IsPreciseKeyword(s[0..0]);
    assert !IsPreciseKeyword(s[|s|..|s|]);
    assert s[0..|s|] == s;
  }

  /** "counting" and "minute" hold "count" and "min" but are not precise queries. */
  lemma KeywordPrefixesDoNotCount()
    ensures !IsPreciseQuery("counting") && !IsPreciseQuery("minute")
  {
    assert Lower("counting") == "counting";
    assert "counting"[..4][0] == 'c';
    NoKeywordInsideWord("counting");
    assert Lower("minute") == "minute";
    assert "minute"[..4][0] == 'm';
    NoKeywordInsideWord("minute");
  }

  const HowMany := "How many Employees work in Paris?"

  /** "How many ..." is a precise query whatever its capitalisation. */
  lemma HowManyIsPrecise()
    ensures IsPreciseQuery(HowMany)
  {
    var l := Lower(HowMany);
    assert HowMany[..9] == "How many ";
    assert l[..9] == Lower(HowMany[..9]);
    assert Lower("How many ") == "how many ";
    assert l[..8] == "how many";
    PreciseMatchAtComplete(l, 0, 8);
  }

  const GraphSchema := "Show me the graph schema"

  lemma GraphSchemaWantsSchema()
    ensures WantsSchema(GraphSchema)
  {
    var l := Lower(GraphSchema);
    assert GraphSchema[18..24] == "schema";
    assert l[18..24] == Lower(GraphSchema[18..24]);
    assert Lower("schema") == "schema";
    assert OccursAt(l, "schema", 18);
    assert "schema" in SchemaKeywords;
  }

  // ---- candidate entities ----

  /** Positions with no upper-case letter start no match, so the scan passes over them. */
  lemma {:induction false} SkipNonUpper(s: string, p: nat, p': nat)
    requires p <= p' <= |s|
    requires forall k :: p <= k < p' ==> !IsAsciiUpper(s[k])
    ensures EntitySpans(s, p) == EntitySpans(s, p')
    decreases p' - p
  {
    if p < p' {
      SkipNonUpper(s, p + 1, p');
    }
  }

  const ParisFrance := "Paris is in France"

  lemma ParisMatch()
    ensures EntityMatchAt(ParisFrance, 0) == Some(5)
  {
    assert EntityRunEnd(ParisFrance, 1) == 5;
  }

  lemma FranceSpans()
    ensures EntitySpans(ParisFrance, 12) == [Span(12, 18)]
  {
    assert EntityRunEnd(ParisFrance, 13) == 18;
    assert EntityMatchAt(ParisFrance, 12) == Some(18);
  }

  lemma NothingBetween()
    ensures EntitySpans(ParisFrance, 5) == EntitySpans(ParisFrance, 12)
  {
    SkipNonUpper(ParisFrance, 5, 12);
  }

  lemma ParisFranceSpans()
    ensures EntitySpans(ParisFrance, 0) == [Span(0, 5), Span(12, 18)]
  {
    ParisMatch();
    FranceSpans();
    NothingBetween();
  }

  lemma ParisFranceSlices()
    ensures ParisFrance[0..5] == "Paris" && ParisFrance[12..18] == "France"
  {
  }

  lemma ParisFranceEntities()
    ensures ExtractEntities(ParisFrance) == ["Paris", "France"]
  {
    ParisFranceSpans();
    ParisFranceSlices();
  }

  /** The match backs off from a trailing hyphen to the boundary before it. */
  lemma TrailingHyphenDropped()
    ensures ExtractEntities("ABC-") == ["ABC"]
  {
    var q := "ABC-";
    assert EntityRunEnd(q, 1) == 4;
    assert EntityMatchAt(q, 0) == Some(3);
    assert EntitySpans(q, 0) == [Span(0, 3)];
    var r := ExtractEntities(q);
    assert r[0] == q[0..3] == "ABC";
  }

  /** Without a capital letter there is no entity. */
  lemma NoCapitalNoEntity()
    ensures ExtractEntities("the cat sat") == []
  {
    SkipNonUpper("the cat sat", 0, 11);
  }

  /** An underscore is a word character, so "Foo" in "Foo_bar" does not end on a boundary. */
  lemma UnderscoreJoinsWords()
    ensures ExtractEntities("Foo_bar") == []
  {
    var q := "Foo_bar";
    assert EntityRunEnd(q, 1) == 3;
    assert EntityMatchAt(q, 0) == None;
    SkipNonUpper(q, 1, 7);
  }

  /** A capital preceded by a letter does not start on a boundary. */
  lemma CapitalInsideWord()
    ensures ExtractEntities("xParis") == []
  {
    var q := "xParis";
    assert !AtBoundary(q, 1);
    assert EntityMatchAt(q, 1) == None;
    SkipNonUpper(q, 2, 6);
  }

  // ---- routing ----

  /** "Show me the graph schema" is answered by the schema query alone. */
  lemma GraphSchemaRoute(r: GraphRAGRouter, tool: string, result: Response, trace: seq<Call>)
    requires r.RouteOutcome(GraphSchema, tool, result, trace)
    ensures tool == "schema_tool" && result == SchemaResponse(r.store.schema) && |trace| == 1
  {
    GraphSchemaWantsSchema();
    r.SchemaRequestAnsweredAlone(GraphSchema, tool, result, trace);
  }
}
