/**
 * The checks `/register` applies to its request body: a name that `trim` does not empty,
 * `isValidEmail` (a fixed regular expression) and `isValidPassword` (a length check).
 */
module Validation {
  import opened Outcomes
  import opened Text

  /** JavaScript truthiness of a string field: `!x` holds for an absent or null field and for "". */
  predicate Truthy(v: Option<string>) {
    v.Some? && v.value != []
  }

  /** The name check of `/register`: it fails on `!name || !name.trim()`. */
  predicate NamePresent(name: Option<string>) {
    Truthy(name) && Trim(name.value) != []
  }

  /** A name passes exactly when it is present and not all whitespace. */
  lemma NamePresentIff(name: Option<string>)
    ensures NamePresent(name) <==> name.Some? && !IsBlank(name.value)
  {
    if name.Some? {
      TrimEmptyIffBlank(name.value);
    }
  }

  /** A character of the regex class `[^\s@]`. */
  predicate IsPlain(c: char) {
    !IsWhitespace(c) && c != '@'
  }

  predicate AllPlain(s: string) {
    forall i | 0 <= i < |s| :: IsPlain(s[i])
  }

  /**
   * The regular expression `^[^\s@]+@[^\s@]+\.[^\s@]+$` matches `s` with its literal `@` at `at`
   * and its literal `.` at `dot`: the three runs around them are non-empty and made of `[^\s@]`.
   */
  predicate MatchesAt(s: string, at: int, dot: int) {
    0 < at < |s| && at + 1 < dot < |s| - 1 &&
    s[at] == '@' && s[dot] == '.' && AllPlain(s[..at]) && AllPlain(s[at + 1..dot]) && AllPlain(s[dot + 1..])
  }

  /** `isValidEmail`: the regular expression matches with some choice of the `@` and the `.`. */
  predicate IsValidEmail(s: string) {
    exists at, dot | 0 < at < |s| && at + 1 < dot < |s| - 1 :: MatchesAt(s, at, dot)
  }

  /** A match at (at, dot) means: those two characters, and `[^\s@]` everywhere else. */
  lemma MatchesAtIff(s: string, at: int, dot: int)
    requires 0 < at < |s| && at + 1 < dot < |s| - 1 && s[at] == '@' && s[dot] == '.'
    ensures MatchesAt(s, at, dot) <==> forall k | 0 <= k < |s| && k != at :: IsPlain(s[k])
  {
    if MatchesAt(s, at, dot) {
      forall k | 0 <= k < |s| && k != at ensures IsPlain(s[k]) {
        if k < at { assert s[k] == s[..at][k]; }
        else if k < dot { assert s[k] == s[at + 1..dot][k - at - 1]; }
        else if k > dot { assert s[k] == s[dot + 1..][k - dot - 1]; }
      }
    }
  }

  /** Number of occurrences of `c` in `s`. */
  function Occurrences(s: string, c: char): nat {
    if s == [] then 0 else (if s[0] == c then 1 else 0) + Occurrences(s[1..], c)
  }

  /** Position of the first `c` in `s`, or `|s|` when there is none. */
  function IndexOf(s: string, c: char): (i: nat)
    ensures i <= |s|
    ensures i < |s| ==> s[i] == c
    ensures forall k | 0 <= k < i :: s[k] != c
  {
    if s == [] then 0 else if s[0] == c then 0 else 1 + IndexOf(s[1..], c)
  }

  lemma {:induction false} NoOccurrences(s: string, c: char)
    ensures Occurrences(s, c) == 0 <==> forall k | 0 <= k < |s| :: s[k] != c
  {
    if s != [] {
      NoOccurrences(s[1..], c);
      assert forall k | 1 <= k < |s| :: s[k] == s[1..][k - 1];
    }
  }

  /** With `c` at position `i`, `c` occurs once exactly when no other position holds it. */
  lemma {:induction false} OccursOnlyAt(s: string, c: char, i: nat)
    requires i < |s| && s[i] == c
    ensures Occurrences(s, c) == 1 <==> forall k | 0 <= k < |s| && k != i :: s[k] != c
  {
    assert forall k | 1 <= k < |s| :: s[k] == s[1..][k - 1];
    if i == 0 {
      NoOccurrences(s[1..], c);
    } else if s[0] == c {
      NoOccurrences(s[1..], c);
      assert s[1..][i - 1] == c;
    } else {
      OccursOnlyAt(s[1..], c, i - 1);
    }
  }

  /** The domain part has a `.` that is neither its first nor its last character. */
  predicate HasInnerDot(d: string) {
    exists j | 0 < j < |d| - 1 :: d[j] == '.'
  }

  /** The whole-string conditions that, together, the email regular expression accepts. */
  predicate EmailShape(s: string) {
    Occurrences(s, '@') == 1 && (forall k | 0 <= k < |s| :: !IsWhitespace(s[k])) &&
    var at := IndexOf(s, '@');
    0 < at < |s| && HasInnerDot(s[at + 1..])
  }

  lemma MatchHasShape(s: string, at: int, dot: int)
    requires 0 < at < |s| && at + 1 < dot < |s| - 1 && MatchesAt(s, at, dot)
    ensures EmailShape(s)
  {
    MatchesAtIff(s, at, dot);
    OccursOnlyAt(s, '@', at);
    assert IndexOf(s, '@') == at;
    assert s[at + 1..][dot - at - 1] == '.';
  }

  lemma ShapeHasMatch(s: string)
    requires EmailShape(s)
    ensures IsValidEmail(s)
  {
    var at := IndexOf(s, '@');
    OccursOnlyAt(s, '@', at);
    var j :| 0 < j < |s[at + 1..]| - 1 && s[at + 1..][j] == '.';
    var dot := at + 1 + j;
    MatchesAtIff(s, at, dot);
    assert MatchesAt(s, at, dot);
  }

  /**
   * What the email regular expression accepts, in words: exactly one `@`, no whitespace,
   * a non-empty part before the `@`, and a `.` inside the part after it that is neither
   * its first nor its last character.
   */
  lemma EmailShapeIff(s: string)
    ensures IsValidEmail(s) <==> EmailShape(s)
  {
    if IsValidEmail(s) {
      var at, dot :| 0 < at < |s| && at + 1 < dot < |s| - 1 && MatchesAt(s, at, dot);
      MatchHasShape(s, at, dot);
    }
    if EmailShape(s) {
      ShapeHasMatch(s);
    }
  }

  /** The email check of `/register`: it fails on `!email || !isValidEmail(email)`. */
  predicate EmailAccepted(email: Option<string>) {
    Truthy(email) && IsValidEmail(email.value)
  }

  /** `isValidPassword`: `password && password.length >= 6`, read as a boolean. */
  function IsValidPassword(password: Option<string>): (r: bool)
    ensures r <==> password.Some? && |password.value| >= 6
  {
    Truthy(password) && |password.value| >= 6
  }

  /** Lower-casing keeps `@`, `.` and whitespace where they are, so it neither makes nor breaks a valid email. */
  lemma ToLowerKeepsEmailValid(s: string)
    ensures IsValidEmail(ToLower(s)) <==> IsValidEmail(s)
  {
    var t := ToLower(s);
    forall i | 0 <= i < |s| ensures (t[i] == '@' <==> s[i] == '@') && (t[i] == '.' <==> s[i] == '.') && (IsPlain(t[i]) <==> IsPlain(s[i])) {
    }
    if IsValidEmail(s) {
      var at, dot :| 0 < at < |s| && at + 1 < dot < |s| - 1 && MatchesAt(s, at, dot);
      MatchesAtIff(s, at, dot);
      MatchesAtIff(t, at, dot);
      assert MatchesAt(t, at, dot);
    }
    if IsValidEmail(t) {
      var at, dot :| 0 < at < |t| && at + 1 < dot < |t| - 1 && MatchesAt(t, at, dot);
      MatchesAtIff(s, at, dot);
      MatchesAtIff(t, at, dot);
      assert MatchesAt(s, at, dot);
    }
  }
}
