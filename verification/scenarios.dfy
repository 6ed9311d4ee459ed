/** The program's own test cases and command-line outcomes, on concrete inputs. */
module Scenarios {
  import opened Results
  import opened Text
  import opened Filters
  import opened Configuration
  import opened Grep

  /** The lines of a three-line text joined by '\n' with no final terminator. */
  lemma LinesOfThree(a: string, b: string, c: string)
    requires |c| > 0 && '\n' !in a && '\n' !in b && '\n' !in c
    requires !EndsWithCr(a) && !EndsWithCr(b)
    ensures Lines(a + "\n" + (b + "\n" + c)) == [a, b, c]
  {
    LinesOfSingle(c);
    LinesOfCons(b, "\n", c);
    LinesOfCons(a, "\n", b + "\n" + c);
  }

  /** The lines of a four-line text joined by '\n' with no final terminator. */
  lemma LinesOfFour(a: string, b: string, c: string, d: string)
    requires |d| > 0 && '\n' !in a && '\n' !in b && '\n' !in c && '\n' !in d
    requires !EndsWithCr(a) && !EndsWithCr(b) && !EndsWithCr(c)
    ensures Lines(a + "\n" + (b + "\n" + (c + "\n" + d))) == [a, b, c, d]
  {
    LinesOfThree(b, c, d);
    LinesOfCons(a, "\n", b + "\n" + (c + "\n" + d));
  }

  // The contents of the program's tests, one line per line of the test.
  const Poem := "Rust:" + "\n" + ("safe, fast, productive." + "\n" + "Pick three.")
  const PoemWithTape := "Rust:" + "\n" + ("safe, fast, productive." + "\n" + ("Pick three." + "\n" + "Duct tape."))
  const PoemWithTrust := "Rust:" + "\n" + ("safe, fast, productive." + "\n" + ("Pick three." + "\n" + "Trust me."))

  lemma PoemLines()
    ensures Lines(Poem) == ["Rust:", "safe, fast, productive.", "Pick three."]
  {
    LinesOfThree("Rust:", "safe, fast, productive.", "Pick three.");
  }

  lemma PoemWithTapeLines()
    ensures Lines(PoemWithTape) == ["Rust:", "safe, fast, productive.", "Pick three.", "Duct tape."]
  {
    LinesOfFour("Rust:", "safe, fast, productive.", "Pick three.", "Duct tape.");
  }

  lemma PoemWithTrustLines()
    ensures Lines(PoemWithTrust) == ["Rust:", "safe, fast, productive.", "Pick three.", "Trust me."]
  {
    LinesOfFour("Rust:", "safe, fast, productive.", "Pick three.", "Trust me.");
  }

  // Assembling a search result from facts about its parts, without looking inside them.

  lemma CaseSensitiveFromParts(query: string, content: string, lines: seq<string>, expected: seq<string>)
    requires Lines(content) == lines
    requires Filter(lines, ExactMatch(query)) == expected
    ensures SearchCaseSensitive(query, content) == expected
  {
  }

  lemma CaseInsensitiveFromParts(query: string, loweredQuery: string, content: string,
                                 lines: seq<string>, expected: seq<string>)
    requires Lower(query) == loweredQuery
    requires Lines(content) == lines
    requires Filter(lines, FoldedMatch(loweredQuery)) == expected
    ensures SearchCaseInsensitive(query, content) == expected
  {
  }

  /** Filtering three elements, given what is kept of each. */
  lemma FilterOfThree<T>(a: T, b: T, c: T, keep: T -> bool, ka: seq<T>, kb: seq<T>, kc: seq<T>)
    requires Kept(a, keep) == ka && Kept(b, keep) == kb && Kept(c, keep) == kc
    ensures Filter([a, b, c], keep) == ka + (kb + kc)
  {
    FilterCons(c, [], keep);
    assert [c] == [c] + [];
    FilterCons(b, [c], keep);
    assert [b, c] == [b] + [c];
    FilterCons(a, [b, c], keep);
    assert [a, b, c] == [a] + [b, c];
  }

  /** Filtering four elements, given what is kept of each. */
  lemma FilterOfFour<T>(a: T, b: T, c: T, d: T, keep: T -> bool, ka: seq<T>, kb: seq<T>, kc: seq<T>, kd: seq<T>)
    requires Kept(a, keep) == ka && Kept(b, keep) == kb && Kept(c, keep) == kc && Kept(d, keep) == kd
    ensures Filter([a, b, c, d], keep) == ka + (kb + (kc + kd))
  {
    FilterOfThree(b, c, d, keep, kb, kc, kd);
    FilterCons(a, [b, c, d], keep);
    assert [a, b, c, d] == [a] + [b, c, d];
  }

  // Two sequence identities, stated once with no string in them so that the
  // scenarios below do not have to be proved on long string literals.

  /** Keeping the first and last of four. */
  lemma KeptFirstAndLast<T>(x: T, y: T)
    ensures [x] + ([] + ([] + [y])) == [x, y]
  {
  }

  /** Keeping the second and last of four. */
  lemma KeptSecondAndLast<T>(x: T, y: T)
    ensures [] + ([x] + ([] + [y])) == [x, y]
  {
  }

  // What each test line contributes to each search.

  /** A line without a 'd' cannot contain "duct". */
  lemma DuctNotIn(line: string)
    requires 'd' !in line
    ensures Kept(line, ExactMatch("duct")) == []
  {
    AbsentCharacter(line, "duct", 0);
  }

  lemma DuctInSafe() ensures Kept("safe, fast, productive.", ExactMatch("duct")) == ["safe, fast, productive."]
  {
    assert OccursAt("safe, fast, productive.", "duct", 15);
  }

  /** "duct" keeps only the second of three lines (the `un_resultado` test). */
  lemma OneResult()
    ensures SearchCaseSensitive("duct", Poem) == ["safe, fast, productive."]
  {
    PoemLines();
    DuctNotIn("Rust:");
    DuctInSafe();
    DuctNotIn("Pick three.");
    FilterOfThree("Rust:", "safe, fast, productive.", "Pick three.", ExactMatch("duct"),
                  [], ["safe, fast, productive."], []);
    CaseSensitiveFromParts("duct", Poem, ["Rust:", "safe, fast, productive.", "Pick three."],
                           ["safe, fast, productive."]);
  }

  /** The case-sensitive search does not keep "Duct tape." (the `distinguido` test). */
  lemma CaseSensitiveSkipsCapitalised()
    ensures SearchCaseSensitive("duct", PoemWithTape) == ["safe, fast, productive."]
  {
    PoemWithTapeLines();
    DuctNotIn("Rust:");
    DuctInSafe();
    DuctNotIn("Pick three.");
    DuctNotIn("Duct tape.");
    FilterOfFour("Rust:", "safe, fast, productive.", "Pick three.", "Duct tape.", ExactMatch("duct"),
                 [], ["safe, fast, productive."], [], []);
    CaseSensitiveFromParts("duct", PoemWithTape, ["Rust:", "safe, fast, productive.", "Pick three.", "Duct tape."],
                           ["safe, fast, productive."]);
  }

  lemma LowerQuery()
    ensures Lower("rUsT") == "rust"
  {
    LowerCons('r', "UsT");
    LowerCons('U', "sT");
    LowerCons('s', "T");
    LowerCons('T', "");
  }

  // The lowercase copies of the test lines.

  lemma LowerRust() ensures Lower("Rust:") == "rust:"
  {
    assert "Rust:" == ['R'] + "ust:";
    LowerCons('R', "ust:");
    LowerFixesLowercase("ust:");
  }

  lemma LowerSafe() ensures Lower("safe, fast, productive.") == "safe, fast, productive."
  {
    LowerFixesLowercase("safe, fast, productive.");
  }

  lemma LowerPick() ensures Lower("Pick three.") == "pick three."
  {
    assert "Pick three." == ['P'] + "ick three.";
    LowerCons('P', "ick three.");
    LowerFixesLowercase("ick three.");
  }

  lemma LowerTrust() ensures Lower("Trust me.") == "trust me."
  {
    assert "Trust me." == ['T'] + "rust me.";
    LowerCons('T', "rust me.");
    LowerFixesLowercase("rust me.");
  }

  lemma LowerDuct() ensures Lower("Duct tape.") == "duct tape."
  {
    assert "Duct tape." == ['D'] + "uct tape.";
    LowerCons('D', "uct tape.");
    LowerFixesLowercase("uct tape.");
  }

  // What each test line contributes to the case-insensitive searches.

  lemma RustInRust() ensures Kept("Rust:", FoldedMatch("rust")) == ["Rust:"]
  {
    LowerRust();
    assert OccursAt("rust:", "rust", 0);
  }

  lemma RustNotInSafe() ensures Kept("safe, fast, productive.", FoldedMatch("rust")) == []
  {
    LowerSafe();
    assert "safe, fast, productive." == "safe, fast, p" + ['r'] + "oductive.";
    SingleCandidate("safe, fast, p", "oductive.", "rust");
  }

  lemma RustNotInPick() ensures Kept("Pick three.", FoldedMatch("rust")) == []
  {
    LowerPick();
    AbsentCharacter("pick three.", "rust", 1);
  }

  lemma RustInTrust() ensures Kept("Trust me.", FoldedMatch("rust")) == ["Trust me."]
  {
    LowerTrust();
    assert OccursAt("trust me.", "rust", 1);
  }

  lemma FoldedDuctNotInRust() ensures Kept("Rust:", FoldedMatch("duct")) == []
  {
    LowerRust();
    AbsentCharacter("rust:", "duct", 0);
  }

  lemma FoldedDuctInSafe() ensures Kept("safe, fast, productive.", FoldedMatch("duct")) == ["safe, fast, productive."]
  {
    LowerSafe();
    assert OccursAt("safe, fast, productive.", "duct", 15);
  }

  lemma FoldedDuctNotInPick() ensures Kept("Pick three.", FoldedMatch("duct")) == []
  {
    LowerPick();
    AbsentCharacter("pick three.", "duct", 0);
  }

  lemma FoldedDuctInTape() ensures Kept("Duct tape.", FoldedMatch("duct")) == ["Duct tape."]
  {
    LowerDuct();
    assert OccursAt("duct tape.", "duct", 0);
  }

  /** "rUsT" ignoring case keeps "Rust:" and "Trust me." as written (the `no_distinguido` test). */
  lemma CaseInsensitiveKeepsOriginalLines()
    ensures SearchCaseInsensitive("rUsT", PoemWithTrust) == ["Rust:", "Trust me."]
  {
    LowerQuery();
    PoemWithTrustLines();
    RustInRust();
    RustNotInSafe();
    RustNotInPick();
    RustInTrust();
    FilterOfFour("Rust:", "safe, fast, productive.", "Pick three.", "Trust me.", FoldedMatch("rust"),
                 ["Rust:"], [], [], ["Trust me."]);
    KeptFirstAndLast("Rust:", "Trust me.");
    CaseInsensitiveFromParts("rUsT", "rust", PoemWithTrust,
                             ["Rust:", "safe, fast, productive.", "Pick three.", "Trust me."],
                             ["Rust:", "Trust me."]);
  }

  /** Ignoring case, "duct" also keeps "Duct tape.". */
  lemma CaseInsensitiveKeepsCapitalised()
    ensures SearchCaseInsensitive("duct", PoemWithTape) == ["safe, fast, productive.", "Duct tape."]
  {
    LowerFixesLowercase("duct");
    PoemWithTapeLines();
    FoldedDuctNotInRust();
    FoldedDuctInSafe();
    FoldedDuctNotInPick();
    FoldedDuctInTape();
    FilterOfFour("Rust:", "safe, fast, productive.", "Pick three.", "Duct tape.", FoldedMatch("duct"),
                 [], ["safe, fast, productive."], [], ["Duct tape."]);
    KeptSecondAndLast("safe, fast, productive.", "Duct tape.");
    CaseInsensitiveFromParts("duct", "duct", PoemWithTape,
                             ["Rust:", "safe, fast, productive.", "Pick three.", "Duct tape."],
                             ["safe, fast, productive.", "Duct tape."]);
  }

  /** Only the program name: the query is reported missing, with or without `IGNORE_CASE`. */
  lemma NoArguments(ignoreCaseSet: bool)
    ensures Build(["minigrep"], ignoreCaseSet) == Failure(MissingQuery)
    ensures Build([], ignoreCaseSet) == Failure(MissingQuery)
  {
  }

  /** A query but no path: the path is reported missing. */
  lemma QueryWithoutPath(ignoreCaseSet: bool)
    ensures Build(["minigrep", "duct"], ignoreCaseSet) == Failure(MissingPath)
  {
  }

  /**
   With `IGNORE_CASE` set the search is case-sensitive, so "Duct tape." is
   left out; with it unset the search ignores case and keeps that line.
   */
  lemma IgnoreCaseVariableIsInverted()
    ensures Search(Build(["minigrep", "duct", "poema.txt"], true).value, PoemWithTape)
         == ["safe, fast, productive."]
    ensures Search(Build(["minigrep", "duct", "poema.txt"], false).value, PoemWithTape)
         == ["safe, fast, productive.", "Duct tape."]
  {
    IgnoreCaseSelectsCaseSensitive(["minigrep", "duct", "poema.txt"], PoemWithTape);
    CaseSensitiveSkipsCapitalised();
    CaseInsensitiveKeepsCapitalised();
  }
}
