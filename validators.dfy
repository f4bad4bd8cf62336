/**
 * The class-validator decorators the request DTOs use, on strings and JSON
 * numbers. Each decorator is a predicate; a DTO's validation result is the
 * list of (property, constraint) pairs whose decorator rejects the value, in
 * decorator order, as class-validator reports them (it evaluates every
 * decorator of every property; it does not stop at the first failure).
 */
module Validators {

  datatype Constraint = IsNotEmpty | MinLength | MaxLength | Matches | IsInt | Min | Max

  datatype Violation = Violation(property: string, constraint: Constraint)

  /** The violation list contributed by one decorator. */
  function Check(property: string, c: Constraint, accepted: bool): (r: seq<Violation>)
    ensures accepted <==> r == []
    ensures !accepted ==> r == [Violation(property, c)]
  {
    if accepted then [] else [Violation(property, c)]
  }

  /** @IsNotEmpty on a string: anything but ''. */
  predicate NotEmpty(s: string) { s != "" }

  /** @MinLength(n) / @MaxLength(n). */
  predicate AtLeast(s: string, n: nat) { |s| >= n }
  predicate AtMost(s: string, n: nat) { |s| <= n }

  /** The character class [A-Z0-9-]. */
  predicate CodeChar(c: char) { 'A' <= c <= 'Z' || '0' <= c <= '9' || c == '-' }

  /**
   * @Matches(/^[A-Z0-9-]+$/): the anchored pattern "one or more characters
   * of the class", matched one character at a time.
   */
  predicate MatchesCodePattern(s: string)
  {
    |s| >= 1 && CodeChar(s[0]) && (|s| == 1 || MatchesCodePattern(s[1..]))
  }

  /** The pattern accepts exactly the non-empty strings made only of class characters. */
  lemma {:induction false} MatchesCodePatternIff(s: string)
    ensures MatchesCodePattern(s) <==> |s| >= 1 && forall i :: 0 <= i < |s| ==> CodeChar(s[i])
  {
    if |s| > 1 {
      MatchesCodePatternIff(s[1..]);
      if forall i :: 0 <= i < |s| ==> CodeChar(s[i]) {
        assert forall i :: 0 <= i < |s| - 1 ==> CodeChar(s[1..][i]) by {
          forall i | 0 <= i < |s| - 1 ensures CodeChar(s[1..][i]) {
            assert s[1..][i] == s[i + 1];
          }
        }
      }
      if MatchesCodePattern(s) {
        forall i | 0 <= i < |s| ensures CodeChar(s[i]) {
          if i > 0 { assert s[i] == s[1..][i - 1]; }
        }
      }
    }
  }

  /** A lower-case letter anywhere makes the pattern fail. */
  lemma LowercaseRejected(s: string, i: nat)
    requires i < |s| && 'a' <= s[i] <= 'z'
    ensures !MatchesCodePattern(s)
  {
    MatchesCodePatternIff(s);
  }

  /** @IsInt on a JSON number: an integral value. */
  predicate Integral(x: real) { x.Floor as real == x }
}
