/**
 String primitives that the search relies on: substring containment
 (`str::contains`), ASCII lowercasing (standing in for `str::to_lowercase`)
 and line splitting (`str::lines`).
 */
module Text {

  /** True when `needle` occurs in `hay` starting at position `i`. */
  ghost predicate OccursAt(hay: string, needle: string, i: int)
  {
    0 <= i && i + |needle| <= |hay| && hay[i..i + |needle|] == needle
  }

  /** Occurrences in `hay[1..]` are the occurrences in `hay` moved one place left. */
  lemma OccursInTail(hay: string, needle: string, i: int)
    requires |hay| > 0 && 0 <= i
    ensures OccursAt(hay, needle, i + 1) <==> OccursAt(hay[1..], needle, i)
  {
    if i + 1 + |needle| <= |hay| {
      assert hay[1..][i..i + |needle|] == hay[i + 1..i + 1 + |needle|];
    }
  }

  /** Substring containment: `needle` occurs somewhere in `hay`. */
  function Contains(hay: string, needle: string): (r: bool)
    ensures r <==> exists i :: OccursAt(hay, needle, i)
    decreases |hay|
  {
    if needle <= hay then
      assert OccursAt(hay, needle, 0);
      true
    else if |hay| == 0 then
      false
    else
      var r := Contains(hay[1..], needle);
      ContainsStep(hay, needle, r);
      r
  }

  /** The recursive step of `Contains`: away from position 0, `hay` and `hay[1..]` agree. */
  lemma ContainsStep(hay: string, needle: string, tailResult: bool)
    requires |hay| > 0 && !(needle <= hay)
    requires tailResult <==> exists i :: OccursAt(hay[1..], needle, i)
    ensures tailResult <==> exists i :: OccursAt(hay, needle, i)
  {
    if tailResult {
      var i :| OccursAt(hay[1..], needle, i);
      OccursInTail(hay, needle, i);
    }
    if i :| OccursAt(hay, needle, i) {
      assert i != 0;
      OccursInTail(hay, needle, i - 1);
    }
  }

  /** Each character of an occurrence is the needle's character at the same offset. */
  lemma OccurrenceCharacter(hay: string, needle: string, i: int, j: int)
    requires OccursAt(hay, needle, i) && 0 <= j < |needle|
    ensures hay[i + j] == needle[j]
  {
    assert hay[i..i + |needle|][j] == hay[i + j];
  }

  /** A needle with a character that is nowhere in `hay` does not occur in it. */
  lemma AbsentCharacter(hay: string, needle: string, j: int)
    requires 0 <= j < |needle| && needle[j] !in hay
    ensures !Contains(hay, needle)
  {
    forall i | OccursAt(hay, needle, i)
      ensures hay[i + j] == needle[j]
    {
      OccurrenceCharacter(hay, needle, i, j);
    }
  }

  /**
   When the needle's first character appears in `hay` only once, and the
   character after it is not the needle's second, the needle does not occur.
   */
  lemma SingleCandidate(before: string, after: string, needle: string)
    requires |needle| >= 2 && needle[0] !in before && needle[0] !in after
    requires |after| > 0 ==> after[0] != needle[1]
    ensures !Contains(before + [needle[0]] + after, needle)
  {
    var hay := before + [needle[0]] + after;
    forall i | OccursAt(hay, needle, i)
      ensures hay[i] == needle[0] && hay[i + 1] == needle[1]
    {
      OccurrenceCharacter(hay, needle, i, 0);
      OccurrenceCharacter(hay, needle, i, 1);
    }
    forall i | 0 <= i < |hay| && i != |before|
      ensures hay[i] != needle[0]
    {
      if i < |before| {
        assert hay[i] == before[i];
      } else {
        assert hay[i] == after[i - |before| - 1];
      }
    }
  }

  /** The empty string occurs in every string. */
  lemma ContainsEmpty(hay: string)
    ensures Contains(hay, "")
  {
    assert OccursAt(hay, "", 0);
  }

  // ---------------------------------------------------------------------------
  // Lowercasing
  // ---------------------------------------------------------------------------

  predicate IsUpper(c: char)
  {
    'A' <= c <= 'Z'
  }

  /** ASCII lowercasing of one character; every other character is kept. */
  function LowerChar(c: char): char
  {
    if IsUpper(c) then (c as int + ('a' as int - 'A' as int)) as char else c
  }

  /** Character-wise lowercasing of a string. */
  function Lower(s: string): (r: string)
    ensures |r| == |s|
    ensures forall i :: 0 <= i < |s| ==> !IsUpper(r[i])
    ensures forall i :: 0 <= i < |s| && !IsUpper(s[i]) ==> r[i] == s[i]
    ensures forall i :: 0 <= i < |s| && IsUpper(s[i]) ==>
      'a' <= r[i] <= 'z' && r[i] as int - 'a' as int == s[i] as int - 'A' as int
  {
    seq(|s|, i requires 0 <= i < |s| => LowerChar(s[i]))
  }

  /** Two characters are the same letter up to ASCII case: equal, or an upper-case letter and its lower-case form. */
  predicate SameLetter(c: char, d: char)
  {
    c == d
    || ('A' <= c <= 'Z' && d as int == c as int + 32)
    || ('A' <= d <= 'Z' && c as int == d as int + 32)
  }

  /** Two strings that agree position by position up to ASCII case. */
  predicate SameUpToCase(a: string, b: string)
  {
    |a| == |b| && forall i :: 0 <= i < |a| ==> SameLetter(a[i], b[i])
  }

  lemma LowerCharSame(c: char, d: char)
    ensures LowerChar(c) == LowerChar(d) <==> SameLetter(c, d)
  {
  }

  /** Two strings have the same lowercase copy exactly when they agree up to ASCII case. */
  lemma LowerEqualIffSameUpToCase(a: string, b: string)
    ensures Lower(a) == Lower(b) <==> SameUpToCase(a, b)
  {
    if Lower(a) == Lower(b) {
      forall i | 0 <= i < |a|
        ensures SameLetter(a[i], b[i])
      {
        assert Lower(a)[i] == Lower(b)[i];
        LowerCharSame(a[i], b[i]);
      }
    }
    if SameUpToCase(a, b) {
      forall i | 0 <= i < |a|
        ensures Lower(a)[i] == Lower(b)[i]
      {
        LowerCharSame(a[i], b[i]);
      }
    }
  }

  /** Lowercasing works one character at a time. */
  lemma LowerCons(c: char, s: string)
    ensures Lower([c] + s) == [LowerChar(c)] + Lower(s)
  {
  }

  /** Lowercasing twice is lowercasing once. */
  lemma LowerIdempotent(s: string)
    ensures Lower(Lower(s)) == Lower(s)
  {
  }

  /** A string without upper-case letters is its own lowercase copy. */
  lemma LowerFixesLowercase(s: string)
    requires forall i :: 0 <= i < |s| ==> !IsUpper(s[i])
    ensures Lower(s) == s
  {
  }

  /** Lowercasing commutes with taking a slice. */
  lemma LowerSlice(s: string, i: int, j: int)
    requires 0 <= i <= j <= |s|
    ensures Lower(s)[i..j] == Lower(s[i..j])
  {
  }

  /** An exact occurrence survives lowercasing both sides. */
  lemma LowerPreservesContains(hay: string, needle: string)
    requires Contains(hay, needle)
    ensures Contains(Lower(hay), Lower(needle))
  {
    var i :| OccursAt(hay, needle, i);
    LowerSlice(hay, i, i + |needle|);
    assert OccursAt(Lower(hay), Lower(needle), i);
  }

  // ---------------------------------------------------------------------------
  // Line splitting
  // ---------------------------------------------------------------------------

  /** Position of the first '\n' in `s`, or `|s|` when there is none. */
  function NewlineIndex(s: string): (i: nat)
    ensures i <= |s|
    ensures i < |s| ==> s[i] == '\n'
    ensures forall k :: 0 <= k < i ==> s[k] != '\n'
    decreases |s|
  {
    if |s| == 0 || s[0] == '\n' then 0 else 1 + NewlineIndex(s[1..])
  }

  /** `NewlineIndex` is pinned down by its contract. */
  lemma NewlineIndexIs(s: string, n: nat)
    requires n <= |s|
    requires n < |s| ==> s[n] == '\n'
    requires forall k :: 0 <= k < n ==> s[k] != '\n'
    ensures NewlineIndex(s) == n
  {
  }

  predicate EndsWithCr(s: string)
  {
    |s| > 0 && s[|s| - 1] == '\r'
  }

  /** Drops one trailing '\r', the first half of a "\r\n" terminator. */
  function StripCr(s: string): string
  {
    if EndsWithCr(s) then s[..|s| - 1] else s
  }

  /**
   The lines of `s`, as Rust's `str::lines`: pieces ending at each '\n'
   (terminator removed, with one '\r' in front of it), then the rest
   when it is not empty, which keeps any '\r' it ends with.
   */
  function Lines(s: string): (r: seq<string>)
    ensures forall k :: 0 <= k < |r| ==> '\n' !in r[k]
    ensures |r| == 0 <==> |s| == 0
    decreases |s|
  {
    if |s| == 0 then []
    else
      var i := NewlineIndex(s);
      if i == |s| then [s]
      else [StripCr(s[..i])] + Lines(s[i + 1..])
  }

  /** Writes every line followed by `terminator`. */
  function Join(lines: seq<string>, terminator: string): string
  {
    if |lines| == 0 then [] else lines[0] + terminator + Join(lines[1..], terminator)
  }

  /** A non-empty string without '\n' is one line, kept whole. */
  lemma LinesOfSingle(s: string)
    requires |s| > 0 && '\n' !in s
    ensures Lines(s) == [s]
  {
    NewlineIndexIs(s, |s|);
  }

  /** Splitting a non-empty piece that starts with `line` and its terminator. */
  lemma LinesOfCons(line: string, terminator: string, rest: string)
    requires '\n' !in line
    requires terminator == "\n" || terminator == "\r\n"
    requires terminator == "\n" ==> !EndsWithCr(line)
    ensures Lines(line + terminator + rest) == [line] + Lines(rest)
  {
    var s := line + terminator + rest;
    var n := |line + terminator| - 1;
    assert s[n] == '\n';
    assert forall k :: 0 <= k < n ==> s[k] == (line + terminator)[k];
    NewlineIndexIs(s, n);
    assert s[..n] == line + terminator[..|terminator| - 1];
    assert StripCr(s[..n]) == line;
    assert s[n + 1..] == rest;
  }

  /** Lines written with "\n" after each (none ending in '\r') split back into themselves. */
  lemma {:induction false} LinesJoinLf(lines: seq<string>)
    requires forall k :: 0 <= k < |lines| ==> '\n' !in lines[k] && !EndsWithCr(lines[k])
    ensures Lines(Join(lines, "\n")) == lines
  {
    if |lines| > 0 {
      LinesJoinLf(lines[1..]);
      LinesOfCons(lines[0], "\n", Join(lines[1..], "\n"));
    }
  }

  /** Lines written with "\r\n" after each split back into themselves, even when one ends in '\r'. */
  lemma {:induction false} LinesJoinCrlf(lines: seq<string>)
    requires forall k :: 0 <= k < |lines| ==> '\n' !in lines[k]
    ensures Lines(Join(lines, "\r\n")) == lines
  {
    if |lines| > 0 {
      LinesJoinCrlf(lines[1..]);
      LinesOfCons(lines[0], "\r\n", Join(lines[1..], "\r\n"));
    }
  }

  /** The final '\n' is optional: adding one after a last line that does not end in '\r' changes nothing. */
  lemma {:induction false} LinesFinalNewlineOptional(s: string)
    requires |s| > 0 && s[|s| - 1] != '\n' && !EndsWithCr(s)
    ensures Lines(s + "\n") == Lines(s)
    decreases |s|
  {
    var i := NewlineIndex(s);
    var t := s + "\n";
    assert forall k :: 0 <= k < |s| ==> t[k] == s[k];
    if i == |s| {
      NewlineIndexIs(t, |s|);
      assert t[..|s|] == s;
      assert t[|s| + 1..] == [];
    } else {
      NewlineIndexIs(t, i);
      assert t[..i] == s[..i];
      assert t[i + 1..] == s[i + 1..] + "\n";
      LinesFinalNewlineOptional(s[i + 1..]);
    }
  }

  /** The number of '\n' characters in `s`. */
  function NewlineCount(s: string): nat
    decreases |s|
  {
    if |s| == 0 then 0 else (if s[0] == '\n' then 1 else 0) + NewlineCount(s[1..])
  }

  lemma {:induction false} NewlineCountAppend(a: string, b: string)
    ensures NewlineCount(a + b) == NewlineCount(a) + NewlineCount(b)
    decreases |a|
  {
    if |a| > 0 {
      NewlineCountAppend(a[1..], b);
      assert (a + b)[1..] == a[1..] + b;
    } else {
      assert a + b == b;
    }
  }

  lemma {:induction false} NewlineCountNone(a: string)
    requires forall k :: 0 <= k < |a| ==> a[k] != '\n'
    ensures NewlineCount(a) == 0
    decreases |a|
  {
    if |a| > 0 {
      NewlineCountNone(a[1..]);
    }
  }

  /** A '\n' at `i` with none before it accounts for one count more than what follows it. */
  lemma NewlineCountAfterFirst(s: string, i: nat)
    requires i < |s| && s[i] == '\n'
    requires forall k :: 0 <= k < i ==> s[k] != '\n'
    ensures NewlineCount(s) == 1 + NewlineCount(s[i + 1..])
  {
    var rest := s[i + 1..];
    NewlineCountNone(s[..i]);
    assert s == s[..i] + (['\n'] + rest);
    NewlineCountAppend(s[..i], ['\n'] + rest);
    assert NewlineCount(['\n'] + rest) == 1 + NewlineCount(rest) by {
      assert (['\n'] + rest)[1..] == rest;
    }
  }

  /** A text with a '\n' has one line more than what follows its first '\n'. */
  lemma LinesCountStep(s: string)
    requires |s| > 0 && NewlineIndex(s) < |s|
    ensures |Lines(s)| == 1 + |Lines(s[NewlineIndex(s) + 1..])|
  {
  }

  /**
   One line per '\n', plus one for a last line without a terminator: a
   final '\n' does not start an empty line, and empty lines between two
   '\n' are kept.
   */
  lemma {:induction false} LinesCount(s: string)
    ensures |Lines(s)| == NewlineCount(s) + (if |s| > 0 && s[|s| - 1] != '\n' then 1 else 0)
    decreases |s|
  {
    if |s| > 0 {
      var i := NewlineIndex(s);
      if i == |s| {
        NewlineCountNone(s);
      } else {
        var rest := s[i + 1..];
        LinesCount(rest);
        LinesCountStep(s);
        NewlineCountAfterFirst(s, i);
        if |rest| > 0 {
          assert s[|s| - 1] == rest[|rest| - 1];
        }
      }
    }
  }

  /** Every character of every line comes from the text. */
  lemma {:induction false} LinesDrawFromText(s: string)
    ensures forall k, j :: 0 <= k < |Lines(s)| && 0 <= j < |Lines(s)[k]| ==> Lines(s)[k][j] in s
    decreases |s|
  {
    if |s| > 0 {
      var i := NewlineIndex(s);
      if i < |s| {
        LinesDrawFromText(s[i + 1..]);
        var first := StripCr(s[..i]);
        assert forall j :: 0 <= j < |first| ==> first[j] == s[j];
        assert forall c :: c in s[i + 1..] ==> c in s;
      }
    }
  }
}
