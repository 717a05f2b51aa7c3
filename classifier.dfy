/**
 * The three stateless predicates the router computes over the question text:
 * a schema request, a precise (aggregate or enumeration) request, and the
 * capitalised candidate entity names.
 */
module Classifier {
  import opened Wrappers
  import opened Text

  // ---------------------------------------------------------------------------
  // Schema requests
  // ---------------------------------------------------------------------------

  const SchemaKeywords: seq<string> :=
    ["schema", "labels", "properties", "relationships", "data model", "graph model"]

  /** `wants_schema`: some keyword occurs in the lower-cased question, even inside a word. */
  predicate WantsSchema(q: string)
    ensures WantsSchema(q) <==>
      exists k, i :: k in SchemaKeywords && OccursAt(Lower(q), k, i)
  {
    exists k | k in SchemaKeywords :: Contains(Lower(q), k)
  }

  /** The schema test ignores case. */
  lemma WantsSchemaIgnoresCase(q: string)
    ensures WantsSchema(q) <==> WantsSchema(Lower(q))
  {
    LowerIdempotent(q);
  }

  // ---------------------------------------------------------------------------
  // Precise requests: \b(count|how many|...|top \d+|...)\b
  // ---------------------------------------------------------------------------

  const PreciseWords: seq<string> :=
    ["count", "how many", "list", "show all", "sum", "avg", "average",
     "min", "max", "greater than", "less than", "between"]

  /** `top \d+`: "top ", a single space, then one or more digits. */
  predicate IsTopN(w: string)
  {
    |w| > 4 && w[..4] == "top " && forall m :: 4 <= m < |w| ==> IsDigit(w[m])
  }

  /** The alternation of the precise-query pattern, matched in full by w. */
  predicate IsPreciseKeyword(w: string)
  {
    w in PreciseWords || IsTopN(w)
  }

  /** s[i..j] is an occurrence of the pattern: a keyword with a word boundary on each side. */
  predicate PreciseSpan(s: string, i: nat, j: nat)
  {
    i <= j <= |s| && AtBoundary(s, i) && AtBoundary(s, j) && IsPreciseKeyword(s[i..j])
  }

  /** What `re.search` decides: the pattern occurs somewhere in s. */
  ghost predicate HasPreciseMatch(s: string)
  {
    exists i, j :: PreciseSpan(s, i, j)
  }

  /** The end of the longest run of digits in s that starts at k. */
  function DigitRunEnd(s: string, k: nat): (e: nat)
    requires k <= |s|
    ensures k <= e <= |s|
    ensures forall m :: k <= m < e ==> IsDigit(s[m])
    ensures e == |s| || !IsDigit(s[e])
    decreases |s| - k
  {
    if k < |s| && IsDigit(s[k]) then DigitRunEnd(s, k + 1) else k
  }

  /** The keyword w occurs at i and is followed by a word boundary. */
  predicate WordMatchAt(s: string, w: string, i: nat)
  {
    OccursAt(s, w, i) && AtBoundary(s, i + |w|)
  }

  /** `top \d+` occurs at i, with every digit that follows taken, and is followed by a word boundary. */
  predicate TopNMatchAt(s: string, i: nat)
  {
    OccursAt(s, "top ", i) && var e := DigitRunEnd(s, i + 4); e > i + 4 && AtBoundary(s, e)
  }

  /** The pattern matches at position i: a boundary, a keyword, a boundary. */
  predicate PreciseMatchAt(s: string, i: nat)
    requires i <= |s|
  {
    && AtBoundary(s, i)
    && ((exists w | w in PreciseWords :: WordMatchAt(s, w, i)) || TopNMatchAt(s, i))
  }

  /** The scan of `re.search`: the pattern matches at i or at some later position. */
  predicate PreciseFrom(s: string, i: nat)
    requires i <= |s|
    decreases |s| - i
  {
    PreciseMatchAt(s, i) || (i < |s| && PreciseFrom(s, i + 1))
  }

  /**
   * `is_precise_query`: some alternative of the pattern occurs, between word
   * boundaries, in the lower-cased question.
   */
  predicate IsPreciseQuery(q: string)
    ensures IsPreciseQuery(q) <==> HasPreciseMatch(Lower(q))
  {
    PreciseFromCorrect(Lower(q), 0);
    PreciseFrom(Lower(q), 0)
  }

  /** A `top \d+` occurrence at i ends exactly where the run of digits after "top " ends. */
  lemma TopNSpanEnd(s: string, i: nat, j: nat)
    requires i + 4 <= |s| && s[i..i + 4] == "top "
    requires j <= |s| && PreciseSpan(s, i, j) && IsTopN(s[i..j])
    ensures j == DigitRunEnd(s, i + 4)
  {
    var w := s[i..j];
    var e := DigitRunEnd(s, i + 4);
    forall m | i + 4 <= m < j ensures IsDigit(s[m]) {
      assert s[m] == w[m - i];
    }
    assert IsWordChar(s[j - 1]);
    DigitRunEndAt(s, i + 4, j);
  }

  /** A run of digits from k that stops at j (at the end or before a non-digit) ends at j. */
  lemma {:induction false} DigitRunEndAt(s: string, k: nat, j: nat)
    requires k <= j <= |s|
    requires forall m :: k <= m < j ==> IsDigit(s[m])
    requires j == |s| || !IsDigit(s[j])
    ensures DigitRunEnd(s, k) == j
    decreases j - k
  {
    if k < j {
      DigitRunEndAt(s, k + 1, j);
    }
  }

  /** A match found at i is an occurrence starting at i. */
  lemma PreciseMatchAtSound(s: string, i: nat)
    requires i <= |s| && PreciseMatchAt(s, i)
    ensures exists j :: PreciseSpan(s, i, j)
  {
    if w :| w in PreciseWords && WordMatchAt(s, w, i) {
      assert s[i..i + |w|] == w;
      assert PreciseSpan(s, i, i + |w|);
    } else {
      var e := DigitRunEnd(s, i + 4);
      assert s[i..e][..4] == s[i..i + 4];
      assert IsTopN(s[i..e]);
      assert PreciseSpan(s, i, e);
    }
  }

  /** An occurrence starting at i is found by the match at i. */
  lemma PreciseMatchAtComplete(s: string, i: nat, j: nat)
    requires PreciseSpan(s, i, j)
    ensures PreciseMatchAt(s, i)
  {
    var w := s[i..j];
    if w in PreciseWords {
      assert WordMatchAt(s, w, i);
    } else {
      assert w[..4] == s[i..i + 4];
      assert OccursAt(s, "top ", i);
      TopNSpanEnd(s, i, j);
    }
  }

  /** Matching at one position finds exactly the occurrences that start there. */
  lemma PreciseMatchAtCorrect(s: string, i: nat)
    requires i <= |s|
    ensures PreciseMatchAt(s, i) <==> exists j :: PreciseSpan(s, i, j)
  {
    if PreciseMatchAt(s, i) {
      PreciseMatchAtSound(s, i);
    }
    if j :| PreciseSpan(s, i, j) {
      PreciseMatchAtComplete(s, i, j);
    }
  }

  /** Scanning from i finds exactly the occurrences that start at i or later. */
  lemma {:induction false} PreciseFromCorrect(s: string, i: nat)
    requires i <= |s|
    ensures PreciseFrom(s, i) <==> exists i', j :: i <= i' && PreciseSpan(s, i', j)
    decreases |s| - i
  {
    PreciseMatchAtCorrect(s, i);
    if i < |s| {
      PreciseFromCorrect(s, i + 1);
      if i', j :| i <= i' && PreciseSpan(s, i', j) {
        if i' > i {
          assert i + 1 <= i' && PreciseSpan(s, i', j);
        }
      }
    } else {
      if i', j :| i <= i' && PreciseSpan(s, i', j) {
        assert i' == i;
      }
    }
  }

  /** The precise-query test ignores case. */
  lemma IsPreciseQueryIgnoresCase(q: string)
    ensures IsPreciseQuery(q) <==> IsPreciseQuery(Lower(q))
  {
    LowerIdempotent(q);
  }

  // ---------------------------------------------------------------------------
  // Candidate entities: re.findall(r"\b[A-Z][a-zA-Z0-9\-]{2,}\b", q)
  // ---------------------------------------------------------------------------

  /** `[a-zA-Z0-9\-]` */
  predicate IsEntityChar(c: char)
  {
    IsAsciiLetter(c) || IsDigit(c) || c == '-'
  }

  /** s[start..end] is a match of the entity pattern. */
  predicate IsEntitySpan(s: string, start: nat, end: nat)
  {
    && start + 3 <= end <= |s|
    && AtBoundary(s, start) && AtBoundary(s, end)
    && IsAsciiUpper(s[start])
    && forall m :: start < m < end ==> IsEntityChar(s[m])
  }

  /** The entity pattern matches at least once starting at position p. */
  ghost predicate HasEntityAt(s: string, p: nat)
  {
    exists end: nat :: IsEntitySpan(s, p, end)
  }

  /** The end of the longest run of entity characters in s that starts at k. */
  function EntityRunEnd(s: string, k: nat): (e: nat)
    requires k <= |s|
    ensures k <= e <= |s|
    ensures forall m :: k <= m < e ==> IsEntityChar(s[m])
    ensures e == |s| || !IsEntityChar(s[e])
    decreases |s| - k
  {
    if k < |s| && IsEntityChar(s[k]) then EntityRunEnd(s, k + 1) else k
  }

  /** The longest run of entity characters from k reaches at least as far as any such run. */
  lemma {:induction false} EntityRunCovers(s: string, k: nat, j: nat)
    requires k <= j <= |s|
    requires forall m :: k <= m < j ==> IsEntityChar(s[m])
    ensures j <= EntityRunEnd(s, k)
    decreases j - k
  {
    if k < j {
      EntityRunCovers(s, k + 1, j);
    }
  }

  /** The greatest j with lo <= j <= hi at which s has a word boundary. */
  function LastBoundary(s: string, lo: nat, hi: nat): (r: Option<nat>)
    requires hi <= |s|
    ensures r.Some? ==> lo <= r.value <= hi && AtBoundary(s, r.value)
    ensures r.Some? ==> forall j :: r.value < j <= hi ==> !AtBoundary(s, j)
    ensures r.None? ==> forall j :: lo <= j <= hi ==> !AtBoundary(s, j)
    decreases hi
  {
    if hi < lo then None
    else if AtBoundary(s, hi) then Some(hi)
    else if hi == lo then None
    else LastBoundary(s, lo, hi - 1)
  }

  /**
   * The match the entity pattern makes at p: the greedy repetition takes the
   * longest run of entity characters and backs off until a boundary follows,
   * so the match found is the longest one starting at p.
   */
  function EntityMatchAt(s: string, p: nat): (r: Option<nat>)
    requires p < |s|
    ensures r.Some? ==> IsEntitySpan(s, p, r.value)
    ensures r.Some? ==> forall end: nat :: IsEntitySpan(s, p, end) ==> end <= r.value
    ensures r.None? ==> !HasEntityAt(s, p)
  {
    if AtBoundary(s, p) && IsAsciiUpper(s[p]) then
      var e := EntityRunEnd(s, p + 1);
      assert forall end: nat :: IsEntitySpan(s, p, end) ==> end <= e by {
        forall end: nat | IsEntitySpan(s, p, end) ensures end <= e {
          EntityRunCovers(s, p + 1, end);
        }
      }
      LastBoundary(s, p + 3, e)
    else
      None
  }

  /** A matched piece of the question, from start (inclusive) to end (exclusive). */
  datatype Span = Span(start: nat, end: nat)

  /** The successive non-overlapping matches `re.findall` collects, scanning from p. */
  function EntitySpans(s: string, p: nat): (spans: seq<Span>)
    requires p <= |s|
    ensures forall k :: 0 <= k < |spans| ==> p <= spans[k].start && IsEntitySpan(s, spans[k].start, spans[k].end)
    decreases |s| - p
  {
    if p == |s| then []
    else match EntityMatchAt(s, p)
      case Some(end) => [Span(p, end)] + EntitySpans(s, end)
      case None => EntitySpans(s, p + 1)
  }

  /**
   * An entity token: an upper-case ASCII letter, then at least two letters, digits
   * or hyphens.
   */
  predicate IsEntityToken(e: string)
  {
    && |e| >= 3 && IsAsciiUpper(e[0])
    && forall m :: 1 <= m < |e| ==> IsEntityChar(e[m])
  }

  /** The text of a match is an entity token. */
  lemma SpanTextIsToken(s: string, start: nat, end: nat)
    requires IsEntitySpan(s, start, end)
    ensures IsEntityToken(s[start..end])
  {
    var e := s[start..end];
    forall m | 1 <= m < |e| ensures IsEntityChar(e[m]) {
      assert e[m] == s[start + m];
    }
  }

  /** `extract_entities_simple`: the matched tokens, in order, duplicates kept. */
  function ExtractEntities(q: string): (r: seq<string>)
    ensures forall k :: 0 <= k < |r| ==> IsEntityToken(r[k])
  {
    var spans := EntitySpans(q, 0);
    assert forall k :: 0 <= k < |spans| ==> IsEntityToken(q[spans[k].start..spans[k].end]) by {
      forall k | 0 <= k < |spans| {
        SpanTextIsToken(q, spans[k].start, spans[k].end);
      }
    }
    seq(|spans|, k requires 0 <= k < |spans| => q[spans[k].start..spans[k].end])
  }

  /**
   * What `re.findall` returns, stated without the scan: the spans are matches in
   * left-to-right order, none overlapping the next; each is the longest match at
   * its start; and every position at or after `from` where a match could start
   * is the start of a span or lies inside one.
   */
  ghost predicate IsFindAll(s: string, from: nat, spans: seq<Span>)
  {
    && (forall k :: 0 <= k < |spans| ==> from <= spans[k].start && IsEntitySpan(s, spans[k].start, spans[k].end))
    && (forall k :: 0 <= k < |spans| - 1 ==> spans[k].end <= spans[k + 1].start)
    && (forall k, end: nat :: 0 <= k < |spans| && IsEntitySpan(s, spans[k].start, end) ==> end <= spans[k].end)
    && (forall p :: from <= p < |s| && HasEntityAt(s, p) ==>
          exists k :: 0 <= k < |spans| && spans[k].start <= p < spans[k].end)
  }

  /** Putting a longest match at p in front of the matches found from its end gives the matches found from p. */
  lemma FindAllCons(s: string, p: nat, end: nat, rest: seq<Span>)
    requires p < |s| && EntityMatchAt(s, p) == Some(end)
    requires IsFindAll(s, end, rest)
    ensures IsFindAll(s, p, [Span(p, end)] + rest)
  {
    var spans := [Span(p, end)] + rest;
    assert forall k :: 1 <= k < |spans| ==> spans[k] == rest[k - 1];
    FindAllConsCovers(s, p, end, rest);
  }

  /** Every match start from p is covered: before `end` by the first span, after it by the rest. */
  lemma FindAllConsCovers(s: string, p: nat, end: nat, rest: seq<Span>)
    requires p < |s| && EntityMatchAt(s, p) == Some(end)
    requires IsFindAll(s, end, rest)
    ensures var spans := [Span(p, end)] + rest;
      forall q :: p <= q < |s| && HasEntityAt(s, q) ==>
        exists k :: 0 <= k < |spans| && spans[k].start <= q < spans[k].end
  {
    var spans := [Span(p, end)] + rest;
    forall q | p <= q < |s| && HasEntityAt(s, q)
      ensures exists k :: 0 <= k < |spans| && spans[k].start <= q < spans[k].end
    {
      if q < end {
        assert spans[0].start <= q < spans[0].end;
      } else {
        var k :| 0 <= k < |rest| && rest[k].start <= q < rest[k].end;
        assert spans[k + 1] == rest[k];
      }
    }
  }

  /** Skipping a position where no match starts keeps the matches found from the next one. */
  lemma FindAllSkip(s: string, p: nat, spans: seq<Span>)
    requires p < |s| && !HasEntityAt(s, p)
    requires IsFindAll(s, p + 1, spans)
    ensures IsFindAll(s, p, spans)
  {
  }

  /** The scan collects exactly what `re.findall` returns. */
  lemma {:induction false} EntitySpansFindAll(s: string, p: nat)
    requires p <= |s|
    ensures IsFindAll(s, p, EntitySpans(s, p))
    decreases |s| - p
  {
    if p < |s| {
      match EntityMatchAt(s, p)
      case Some(end) =>
        EntitySpansFindAll(s, end);
        FindAllCons(s, p, end, EntitySpans(s, end));
      case None =>
        EntitySpansFindAll(s, p + 1);
        FindAllSkip(s, p, EntitySpans(s, p + 1));
    }
  }

  /** Spans satisfying the findall description are ordered: each ends before any later one starts. */
  lemma {:induction false} FindAllOrdered(s: string, from: nat, spans: seq<Span>, i: nat, j: nat)
    requires IsFindAll(s, from, spans) && i < j < |spans|
    ensures spans[i].end <= spans[j].start
    decreases j - i
  {
    if i + 1 < j {
      FindAllOrdered(s, from, spans, i, j - 1);
      assert IsEntitySpan(s, spans[j - 1].start, spans[j - 1].end);
    }
  }

  /** Every span a findall description admits starts inside the string. */
  lemma FindAllInside(s: string, from: nat, spans: seq<Span>)
    requires IsFindAll(s, from, spans)
    ensures forall k :: 0 <= k < |spans| ==> from <= spans[k].start < |s|
    ensures |spans| > 0 ==> from < |s|
  {
    if |spans| > 0 {
      assert from <= spans[0].start < |s|;
    }
  }

  /** Where no match starts, the findall description from p is also one from p + 1. */
  lemma FindAllFromNext(s: string, p: nat, spans: seq<Span>)
    requires p < |s| && !HasEntityAt(s, p) && IsFindAll(s, p, spans)
    ensures IsFindAll(s, p + 1, spans)
  {
    forall k | 0 <= k < |spans| ensures p < spans[k].start {
      if k > 0 {
        FindAllOrdered(s, p, spans, 0, k);
      }
    }
  }

  /**
   * Where the longest match at p ends at `end`, a findall description from p starts
   * with that match and continues with one from `end`.
   */
  lemma FindAllFirst(s: string, p: nat, end: nat, spans: seq<Span>)
    requires p < |s| && EntityMatchAt(s, p) == Some(end) && IsFindAll(s, p, spans)
    ensures |spans| > 0 && spans[0] == Span(p, end)
    ensures IsFindAll(s, end, spans[1..])
  {
    assert HasEntityAt(s, p);
    var k :| 0 <= k < |spans| && spans[k].start <= p < spans[k].end;
    assert k == 0 by {
      if k > 0 {
        FindAllOrdered(s, p, spans, 0, k);
      }
    }
    var rest := spans[1..];
    assert forall j :: 0 <= j < |rest| ==> rest[j] == spans[j + 1];
    forall j | 0 <= j < |rest| ensures end <= rest[j].start {
      FindAllOrdered(s, p, spans, 0, j + 1);
    }
    forall q | end <= q < |s| && HasEntityAt(s, q)
      ensures exists j :: 0 <= j < |rest| && rest[j].start <= q < rest[j].end
    {
      var m :| 0 <= m < |spans| && spans[m].start <= q < spans[m].end;
      assert rest[m - 1] == spans[m];
    }
  }

  /** The findall description allows one result only: the one the scan computes. */
  lemma {:induction false} FindAllUnique(s: string, p: nat, spans: seq<Span>)
    requires p <= |s| && IsFindAll(s, p, spans)
    ensures spans == EntitySpans(s, p)
    decreases |s| - p
  {
    FindAllInside(s, p, spans);
    if p < |s| {
      match EntityMatchAt(s, p)
      case None =>
        FindAllFromNext(s, p, spans);
        FindAllUnique(s, p + 1, spans);
      case Some(end) =>
        FindAllFirst(s, p, end, spans);
        FindAllUnique(s, end, spans[1..]);
        assert spans == [spans[0]] + spans[1..];
    }
  }

  /**
   * `extract_entities_simple` returns the tokens of the spans `re.findall` would
   * match, in left-to-right order, duplicates kept.
   */
  lemma ExtractEntitiesIsFindAll(q: string)
    ensures exists spans: seq<Span> ::
      && IsFindAll(q, 0, spans)
      && |ExtractEntities(q)| == |spans|
      && forall k :: 0 <= k < |spans| ==> ExtractEntities(q)[k] == q[spans[k].start..spans[k].end]
    ensures forall spans: seq<Span> :: IsFindAll(q, 0, spans) ==>
      && |ExtractEntities(q)| == |spans|
      && forall k :: 0 <= k < |spans| ==> ExtractEntities(q)[k] == q[spans[k].start..spans[k].end]
  {
    EntitySpansFindAll(q, 0);
    var spans := EntitySpans(q, 0);
    assert |ExtractEntities(q)| == |spans|;
    forall other: seq<Span> | IsFindAll(q, 0, other)
      ensures other == spans
    {
      FindAllUnique(q, 0, other);
    }
  }

  /** Every extracted entity occurs in the question delimited by word boundaries. */
  lemma ExtractedEntityOccurs(q: string, k: nat)
    requires k < |ExtractEntities(q)|
    ensures exists sp: Span :: IsEntitySpan(q, sp.start, sp.end) && q[sp.start..sp.end] == ExtractEntities(q)[k]
  {
    var sp := EntitySpans(q, 0)[k];
    assert IsEntitySpan(q, sp.start, sp.end) && q[sp.start..sp.end] == ExtractEntities(q)[k];
  }
}
