# minigrep — a Dafny model

`minigrep` is a small `grep`. It takes a search text (`consulta`) and a file path (`ruta`) on the command line and prints every line of the file that contains the search text. Whether case matters depends on the `IGNORE_CASE` environment variable. The program's logic lives in `src/lib.rs`. This project models that logic as pure Dafny functions and proves what they compute:

- `Configuration.Build` is `Config::build`. It skips the program name, takes the query and then the path, and fails with a distinct error for each one that is missing. It sets `distinguir` from whether `IGNORE_CASE` is present.
- `Grep.SearchCaseSensitive` is `busqueda`. It keeps the lines that contain the query exactly.
- `Grep.SearchCaseInsensitive` is `buscar_distinguido`. It lowercases the query once, keeps each line whose lowercase copy contains it, and returns the original lines.
- `Grep.Search` is the choice `run` makes between the two filters.
- `Text` holds the string primitives: `Contains` (`str::contains`), `Lower` (`to_lowercase`, limited to ASCII) and `Lines` (`str::lines`).
- `Filters` holds the order-preserving filter that both searches are built from. It also holds an independent reference definition, `Selects`: a result is the input read at strictly increasing positions, and those positions are exactly the accepted ones. `Filter` is proved to be the only sequence that meets it.
- `Scenarios` restates the program's unit tests and the command-line outcomes as lemmas on the same inputs.

Two points where the code and a natural reading of the program differ. The model follows the code in both:

- Setting `IGNORE_CASE` selects the **case-sensitive** search. `distinguir` is whether the variable is present (`src/lib.rs:47`), and `distinguir == true` runs `busqueda` (`src/lib.rs:72-73`). Leaving the variable unset gives the case-insensitive search. This is the opposite of what the variable's name suggests. `Scenarios.IgnoreCaseVariableIsInverted` shows it on "Duct tape.".
- Nothing requires the query or the path to be non-empty. `Build` accepts empty strings.

`Lines` follows the current `str::lines`. The text is split after each `'\n'`. The `'\n'` is removed, together with one `'\r'` just before it. A last piece without a terminator is a line only when it is non-empty, and it keeps any `'\r'` it ends with.

## Model

| member | source | states |
|---|---|---|
| Configuration.Build | src/lib.rs:35-50 | Always skips the first argument. With at most one argument the result is the missing-query error. With exactly two it is the missing-path error. With three or more it is `Config(args[1], args[2], ignoreCaseSet)`, so `distinguir` equals whether `IGNORE_CASE` is set, and empty strings are accepted. |
| Configuration.BuildIgnoresExtraArguments | src/lib.rs:42-49 | Once a query and a path are present, appending more arguments does not change the result. |
| Configuration.BuildError.Message | src/lib.rs:40-44 | Each error has its own message, and both messages begin "No se especificó ", saying that an argument was not given. Which argument is named after that prefix is what `MessagesDistinct` separates. |
| Configuration.MessagesDistinct | src/lib.rs:38-45 | The missing-query and missing-path messages differ, so the caller can tell which argument is missing. |
| Text.Contains | src/lib.rs:89 | `Contains(hay, needle)` holds exactly when `needle` occurs in `hay` at some position, checked against the slice-based definition `OccursAt`. |
| Text.Lower | src/lib.rs:95-100 | Lowercasing keeps the length and changes only upper-case ASCII letters. Each `'A'`..`'Z'` becomes the letter at the same place in `'a'`..`'z'`, so no upper-case letter is left. |
| Text.LowerEqualIffSameUpToCase | src/lib.rs:95-100 | Two strings have the same lowercase copy if and only if they agree position by position up to ASCII case. "Same letter up to case" is defined separately from `Lower`. |
| Text.LowerIdempotent | src/lib.rs:95-100 | Lowercasing a lowercased string changes nothing. |
| Text.LowerPreservesContains | src/lib.rs:95-100 | An exact occurrence is still an occurrence after lowercasing both sides, so every exact match is also a case-insensitive match. |
| Text.Lines | src/lib.rs:86 | No line contains `'\n'`. There are no lines exactly when the text is empty. |
| Text.LinesCount | src/lib.rs:86 | There is one line per `'\n'`, plus one for a final line without a terminator. A trailing `'\n'` does not add an empty line, and empty lines between two `'\n'` are kept. |
| Text.LinesJoinLf | src/lib.rs:86 | Lines free of `'\n'` that do not end in `'\r'`, written with `'\n'` after each, split back into exactly those lines. |
| Text.LinesJoinCrlf | src/lib.rs:86 | Lines free of `'\n'`, written with `"\r\n"` after each, split back into exactly those lines. Only one `'\r'` is removed per terminator. |
| Text.LinesFinalNewlineOptional | src/lib.rs:86 | Adding a final `'\n'` to a non-empty text that ends in neither `'\n'` nor `'\r'` leaves its lines unchanged. |
| Filters.Filter | src/lib.rs:87-91 | The result is no longer than the input, and the predicate accepts every element of it. |
| Filters.FilterIsTheSelection | src/lib.rs:87-91 | `r == Filter(xs, keep)` holds if and only if some strictly increasing positions read `r` out of `xs`, and those positions are exactly the ones whose element `keep` accepts. |
| Filters.FilterMembership | src/lib.rs:87-91 | A value is in the result if and only if it is in the input and accepted. |
| Filters.FilterIdempotent | src/lib.rs:87-91 | Filtering the result again with the same predicate returns it unchanged. |
| Filters.FilterNarrow | src/lib.rs:87-91 | Filtering by a wider predicate and then a narrower one is the same as filtering by the narrower one alone. |
| Grep.SearchCaseSensitive | src/lib.rs:84-92 | A line is in the result if and only if it is a line of the content that contains the query. There are at most as many results as lines. |
| Grep.CaseSensitiveIsOrderedSelection | src/lib.rs:84-92 | The result is exactly the lines containing the query, in their original order, with duplicates kept. Any other ordered selection of those lines is the same sequence. |
| Grep.SearchCaseInsensitive | src/lib.rs:94-103 | A line is in the result if and only if it is a line of the content whose lowercase copy contains the lowercased query. |
| Grep.CaseInsensitiveIsOrderedSelection | src/lib.rs:94-103 | The result is exactly the original, unlowered lines whose lowercase copy contains the lowercased query, in order, with duplicates kept. |
| Grep.CaseInsensitiveIgnoresQueryCase | src/lib.rs:94-103 | Two queries that differ only in ASCII case give the same case-insensitive result on every content. |
| Grep.FoldedMatchIgnoresCase | src/lib.rs:98-101 | Whether a line is kept by the case-insensitive search does not change when the line or the query is rewritten with different ASCII case. |
| Grep.EmptyQueryMatchesEveryLine | src/lib.rs:84-103 | With an empty query, both searches return every line of the content. |
| Grep.CaseSensitiveIdempotent | src/lib.rs:87-91 | Applying the exact-containment test again to the case-sensitive result changes nothing. |
| Grep.CaseInsensitiveIdempotent | src/lib.rs:98-102 | Applying the lowercase-containment test again to the case-insensitive result changes nothing. |
| Grep.CaseSensitiveNarrowsCaseInsensitive | src/lib.rs:84-103 | The case-sensitive result is the case-insensitive result narrowed to the exact matches. In particular it is never longer. |
| Grep.ModesAgreeWithoutUpperCase | src/lib.rs:84-103 | When neither the query nor the content has an ASCII upper-case letter (`A`–`Z`), the two searches return the same lines. |
| Grep.Search | src/lib.rs:72-76 | With `distinguir` set, a line is kept if and only if it contains the query exactly. Otherwise it is kept if and only if its lowercase copy contains the lowercased query. |
| Grep.IgnoreCaseSelectsCaseSensitive | src/lib.rs:47-76 | Given a query and a path, a set `IGNORE_CASE` leads to the case-sensitive search and an unset one to the case-insensitive search. |
| Scenarios.OneResult | src/lib.rs:110-118 | "duct" over the three-line poem yields only "safe, fast, productive.". |
| Scenarios.CaseSensitiveSkipsCapitalised | src/lib.rs:121-130 | The case-sensitive search for "duct" leaves out "Duct tape.". |
| Scenarios.CaseInsensitiveKeepsOriginalLines | src/lib.rs:133-142 | The case-insensitive search for "rUsT" yields "Rust:" and "Trust me." exactly as written. |
| Scenarios.CaseInsensitiveKeepsCapitalised | src/lib.rs:94-103 | The case-insensitive search for "duct" keeps both "safe, fast, productive." and "Duct tape.". |
| Scenarios.NoArguments | src/lib.rs:36-40 | With only the program name, or no arguments at all, building fails with the missing-query error. |
| Scenarios.QueryWithoutPath | src/lib.rs:42-45 | With a query but no path, building fails with the missing-path error. |
| Scenarios.IgnoreCaseVariableIsInverted | src/lib.rs:47-76 | With `IGNORE_CASE` set, "duct" leaves out "Duct tape.". With it unset, that line is kept. |

## Left out

- Reading the file (`fs::read_to_string`, `src/lib.rs:70`) and the error it can raise. The content is a parameter of `Grep.Search`.
- Printing the result (`src/lib.rs:78-80`) and the process plumbing of `src/main.rs` (error messages on standard error, exit codes).
- The environment lookup itself (`env::var`, `src/lib.rs:47`). Only whether `IGNORE_CASE` is present is a parameter. The model does not cover a variable that is set to a value that is not valid Unicode, which `is_ok()` treats as unset.
- Text.Lower: models ASCII lowercasing only (`A`–`Z` to `a`–`z`). Rust's `to_lowercase` uses the Unicode tables. It can change a string's length and depends on context (final sigma). Those tables are outside the program.
- Text.LowerEqualIffSameUpToCase: the "if" direction also holds for Rust's `to_lowercase`. The "only if" direction holds only because the model lowers `A`–`Z` alone. In the program, `"É"` and `"é"` both lowercase to `"é"`, yet they do not agree up to ASCII case.
- Text.LowerPreservesContains: holds for lowercasing one character at a time only. Under Rust's final-sigma rule it fails: `"ΑΣ"` contains `"Σ"`, but `"ας"` (the lowercase of `"ΑΣ"`) does not contain `"σ"` (the lowercase of `"Σ"`).
- Grep.CaseSensitiveNarrowsCaseInsensitive: holds for lowercasing one character at a time only. With query `"Σ"` and the line `"ΑΣ"`, `busqueda` keeps the line and `buscar_distinguido` drops it, so in the program the case-sensitive result is not always contained in the case-insensitive one.
- Grep.ModesAgreeWithoutUpperCase: holds when "upper case" means `A`–`Z` only, as in the model. In the program, content `"É"` with query `"é"` has no ASCII upper-case letter, yet `busqueda` drops the line and `buscar_distinguido` keeps it.
- Results are copies of lines (`seq<string>`), not borrowed slices of the content. Lifetimes and borrowing are not modelled.
