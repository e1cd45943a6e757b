/**
 * The identifier sanitizer: the only gate between configured table and column names
 * and the SQL text they are interpolated into.
 */
module Identifiers {
  import opened Wrappers
  import opened Errors

  /** A character of the class `[A-Za-z0-9_]`. */
  predicate IsIdentifierChar(c: char) {
    ('A' <= c <= 'Z') || ('a' <= c <= 'z') || ('0' <= c <= '9') || c == '_'
  }

  /** Reference definition of an allowed identifier: non-empty, every character in the class. */
  predicate IsIdentifier(s: string) {
    |s| > 0 && forall i :: 0 <= i < |s| ==> IsIdentifierChar(s[i])
  }

  /**
   * How the regular-expression engine runs `[A-Za-z0-9_]+` from the start of `s`:
   * the length of the longest leading run of identifier characters.
   */
  function IdentifierRun(s: string): (n: nat)
    ensures n <= |s|
    ensures forall i :: 0 <= i < n ==> IsIdentifierChar(s[i])
    ensures n < |s| ==> !IsIdentifierChar(s[n])
  {
    if |s| == 0 || !IsIdentifierChar(s[0]) then 0 else 1 + IdentifierRun(s[1..])
  }

  /**
   * `re.match(r"^[A-Za-z0-9_]+$", s)` as Python evaluates it: a non-empty run, then `$`,
   * which matches at the end of the string or just before a newline that ends it.
   * Backtracking cannot help, since `$` never matches in front of an identifier character.
   */
  predicate PatternMatchesAsWritten(s: string) {
    var n := IdentifierRun(s);
    n > 0 && (n == |s| || (n == |s| - 1 && s[n] == '\n'))
  }

  /** The intended test: the run covers the whole string. */
  predicate PatternMatches(s: string) {
    var n := IdentifierRun(s);
    n > 0 && n == |s|
  }

  lemma PatternMatchesIsIdentifier(s: string)
    ensures PatternMatches(s) <==> IsIdentifier(s)
  {
  }

  /** `value or default` for a string: the default stands in for an empty value. */
  function Candidate(value: string, default: string): string {
    if value == "" then default else value
  }

  /**
   * `_sanitize_identifier(value, default)`: the candidate is `value`, or `default` when
   * `value` is empty; it is returned when it is an allowed identifier and raises otherwise.
   */
  function SanitizeIdentifier(value: string, default: string): (r: Result<string, Error>)
    ensures var candidate := Candidate(value, default);
      && (r.Success? <==> IsIdentifier(candidate))
      && (r.Success? ==> r.value == candidate)
      && (r.Failure? ==> r.error == InvalidIdentifier(candidate))
  {
    var candidate := Candidate(value, default);
    PatternMatchesIsIdentifier(candidate);
    if PatternMatches(candidate) then Success(candidate) else Failure(InvalidIdentifier(candidate))
  }

  /** The sanitizer with the anchor exactly as the source writes it. */
  function SanitizeIdentifierAsWritten(value: string, default: string): (r: Result<string, Error>)
    ensures var candidate := Candidate(value, default);
      && (r.Success? <==> PatternMatchesAsWritten(candidate))
      && (r.Success? ==> r.value == candidate)
  {
    var candidate := Candidate(value, default);
    if PatternMatchesAsWritten(candidate) then Success(candidate) else Failure(InvalidIdentifier(candidate))
  }

  /**
   * The anchor as written admits exactly one more kind of string than intended: an
   * allowed identifier followed by a single newline, which is then interpolated into SQL.
   */
  lemma {:induction false} AsWrittenAdmitsTrailingNewline(s: string)
    ensures PatternMatchesAsWritten(s) <==>
      IsIdentifier(s) || (|s| >= 2 && s[|s| - 1] == '\n' && IsIdentifier(s[..|s| - 1]))
  {
    var n := IdentifierRun(s);
    if |s| >= 2 && s[|s| - 1] == '\n' && IsIdentifier(s[..|s| - 1]) {
      RunOfIdentifierPrefix(s, |s| - 1);
    }
  }

  lemma {:induction false} RunOfIdentifierPrefix(s: string, k: nat)
    requires k <= |s| && (k == 0 || IsIdentifier(s[..k]))
    requires k < |s| ==> !IsIdentifierChar(s[k])
    ensures IdentifierRun(s) == k
  {
    if k > 0 {
      assert IsIdentifierChar(s[0]) by { assert s[..k][0] == s[0]; }
      if k > 1 {
        assert s[1..][..k - 1] == s[..k][1..];
        RunOfIdentifierPrefix(s[1..], k - 1);
      } else {
        RunOfIdentifierPrefix(s[1..], 0);
      }
    }
  }

  /** The input that shows the difference: a column name with a trailing newline. */
  lemma TrailingNewlineCounterexample()
    ensures SanitizeIdentifierAsWritten("symbol\n", "symbol") == Success("symbol\n")
    ensures SanitizeIdentifier("symbol\n", "symbol") == Failure(InvalidIdentifier("symbol\n"))
  {
    var s := "symbol\n";
    assert s[..6] == "symbol";
    RunOfIdentifierPrefix(s, 6);
    assert !IsIdentifierChar(s[6]);
  }
}
