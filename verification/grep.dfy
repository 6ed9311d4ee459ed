/**
 The two line filters and the choice between them that `run` makes. The
 file has already been read: its content is a parameter, and the printing
 of the result is left to the caller.
 */
module Grep {
  import opened Text
  import opened Filters
  import opened Configuration

  /** Accepts a line that contains `query` exactly. */
  function ExactMatch(query: string): string -> bool
  {
    line => Contains(line, query)
  }

  /** Accepts a line whose lowercase copy contains `loweredQuery`. */
  function FoldedMatch(loweredQuery: string): string -> bool
  {
    line => Contains(Lower(line), loweredQuery)
  }

  /** `busqueda`: the lines of `content` that contain `query`, in order. */
  function SearchCaseSensitive(query: string, content: string): (r: seq<string>)
    ensures |r| <= |Lines(content)|
    ensures forall line :: line in r <==> line in Lines(content) && Contains(line, query)
  {
    FilterMembership(Lines(content), ExactMatch(query));
    Filter(Lines(content), ExactMatch(query))
  }

  /**
   `buscar_distinguido`: the query is lowercased once; a line is kept when
   its lowercase copy contains it, and the line itself, not its lowercase
   copy, goes into the result.
   */
  function SearchCaseInsensitive(query: string, content: string): (r: seq<string>)
    ensures |r| <= |Lines(content)|
    ensures forall line :: line in r <==> line in Lines(content) && Contains(Lower(line), Lower(query))
  {
    var loweredQuery := Lower(query);
    FilterMembership(Lines(content), FoldedMatch(loweredQuery));
    Filter(Lines(content), FoldedMatch(loweredQuery))
  }

  /** The choice `run` makes: `distinguir` selects the case-sensitive filter. */
  function Search(config: Config, content: string): (r: seq<string>)
    ensures config.distinguir ==>
      forall line :: line in r <==> line in Lines(content) && Contains(line, config.consulta)
    ensures !config.distinguir ==>
      forall line :: line in r <==> line in Lines(content) && Contains(Lower(line), Lower(config.consulta))
  {
    if config.distinguir then
      SearchCaseSensitive(config.consulta, content)
    else
      SearchCaseInsensitive(config.consulta, content)
  }

  // ---------------------------------------------------------------------------
  // The results are exactly the ordered selections
  // ---------------------------------------------------------------------------

  /**
   `r` is the case-sensitive result exactly when it is the lines of `content`
   read at increasing positions, those positions being the lines that
   contain `query`.
   */
  lemma CaseSensitiveIsOrderedSelection(query: string, content: string, r: seq<string>)
    ensures r == SearchCaseSensitive(query, content)
        <==> exists idx :: Selects(idx, r, Lines(content), ExactMatch(query))
  {
    assert SearchCaseSensitive(query, content) == Filter(Lines(content), ExactMatch(query));
    FilterIsTheSelection(Lines(content), ExactMatch(query), r);
  }

  /**
   `r` is the case-insensitive result exactly when it is the original lines
   of `content` read at increasing positions, those positions being the
   lines whose lowercase copy contains the lowercased query.
   */
  lemma CaseInsensitiveIsOrderedSelection(query: string, content: string, r: seq<string>)
    ensures r == SearchCaseInsensitive(query, content)
        <==> exists idx :: Selects(idx, r, Lines(content), FoldedMatch(Lower(query)))
  {
    assert SearchCaseInsensitive(query, content) == Filter(Lines(content), FoldedMatch(Lower(query)));
    FilterIsTheSelection(Lines(content), FoldedMatch(Lower(query)), r);
  }

  // ---------------------------------------------------------------------------
  // Further properties
  // ---------------------------------------------------------------------------

  /** The empty query matches every line, in both modes. */
  lemma EmptyQueryMatchesEveryLine(content: string)
    ensures SearchCaseSensitive("", content) == Lines(content)
    ensures SearchCaseInsensitive("", content) == Lines(content)
  {
    var lines := Lines(content);
    forall k | 0 <= k < |lines|
      ensures ExactMatch("")(lines[k]) && FoldedMatch(Lower(""))(lines[k])
    {
      ContainsEmpty(lines[k]);
      ContainsEmpty(Lower(lines[k]));
    }
    FilterKeepsAll(lines, ExactMatch(""));
    FilterKeepsAll(lines, FoldedMatch(Lower("")));
  }

  /** Applying the case-sensitive test again to its result changes nothing. */
  lemma CaseSensitiveIdempotent(query: string, content: string)
    ensures Filter(SearchCaseSensitive(query, content), ExactMatch(query)) == SearchCaseSensitive(query, content)
  {
    FilterIdempotent(Lines(content), ExactMatch(query));
  }

  /** Applying the case-insensitive test again to its result changes nothing. */
  lemma CaseInsensitiveIdempotent(query: string, content: string)
    ensures Filter(SearchCaseInsensitive(query, content), FoldedMatch(Lower(query)))
         == SearchCaseInsensitive(query, content)
  {
    FilterIdempotent(Lines(content), FoldedMatch(Lower(query)));
  }

  /**
   Every exact match is also a case-insensitive match, so the case-sensitive
   result is the case-insensitive result narrowed to the exact matches.
   */
  lemma CaseSensitiveNarrowsCaseInsensitive(query: string, content: string)
    ensures SearchCaseSensitive(query, content)
         == Filter(SearchCaseInsensitive(query, content), ExactMatch(query))
    ensures |SearchCaseSensitive(query, content)| <= |SearchCaseInsensitive(query, content)|
  {
    forall line | ExactMatch(query)(line)
      ensures FoldedMatch(Lower(query))(line)
    {
      LowerPreservesContains(line, query);
    }
    FilterNarrow(Lines(content), FoldedMatch(Lower(query)), ExactMatch(query));
  }

  /**
   With arguments for a query and a path, setting `IGNORE_CASE` yields the
   case-sensitive search and leaving it unset the case-insensitive one.
   */
  lemma IgnoreCaseSelectsCaseSensitive(args: seq<string>, content: string)
    requires |args| >= 3
    ensures Build(args, true).Success?
    ensures Search(Build(args, true).value, content) == SearchCaseSensitive(args[1], content)
    ensures Build(args, false).Success?
    ensures Search(Build(args, false).value, content) == SearchCaseInsensitive(args[1], content)
  {
  }

  /** Without upper-case letters in the query or the text, the two filters agree. */
  lemma ModesAgreeWithoutUpperCase(query: string, content: string)
    requires forall i :: 0 <= i < |query| ==> !IsUpper(query[i])
    requires forall i :: 0 <= i < |content| ==> !IsUpper(content[i])
    ensures SearchCaseSensitive(query, content) == SearchCaseInsensitive(query, content)
  {
    var lines := Lines(content);
    LinesDrawFromText(content);
    LowerFixesLowercase(query);
    forall k | 0 <= k < |lines|
      ensures Lower(lines[k]) == lines[k]
    {
      forall j | 0 <= j < |lines[k]|
        ensures !IsUpper(lines[k][j])
      {
        assert lines[k][j] in content;
      }
      LowerFixesLowercase(lines[k]);
    }
    FilterSameDecisions(lines, ExactMatch(query), FoldedMatch(Lower(query)));
  }

  /** The case-insensitive search gives the same lines for two queries that differ only in ASCII case. */
  lemma CaseInsensitiveIgnoresQueryCase(query: string, other: string, content: string)
    requires SameUpToCase(query, other)
    ensures SearchCaseInsensitive(query, content) == SearchCaseInsensitive(other, content)
  {
    LowerEqualIffSameUpToCase(query, other);
  }

  /** Whether a line is kept ignoring case does not depend on the case of the line or of the query. */
  lemma FoldedMatchIgnoresCase(query: string, other: string, line: string, otherLine: string)
    requires SameUpToCase(query, other) && SameUpToCase(line, otherLine)
    ensures FoldedMatch(Lower(query))(line) <==> FoldedMatch(Lower(other))(otherLine)
  {
    LowerEqualIffSameUpToCase(query, other);
    LowerEqualIffSameUpToCase(line, otherLine);
  }
}
